/**
 The SOCKS5 client of tools/nettest.py over a byte stream that arrives in
 pieces. The peer's bytes are a queue of non-empty chunks; what a `recv` call
 returns depends on how the bytes were cut, what the client decides does not.
 */
module Socks5 {
  import opened Options

  type Byte = b: int | 0 <= b < 256

  type Bytes = seq<Byte>

  // ---------------------------------------------------------------- the stream

  /** Bytes still to come, cut the way the network happened to deliver them. */
  ghost predicate Cut(chunks: seq<Bytes>) {
    forall i :: 0 <= i < |chunks| ==> chunks[i] != []
  }

  function Flatten(chunks: seq<Bytes>): Bytes {
    if chunks == [] then [] else chunks[0] + Flatten(chunks[1..])
  }

  function Take(s: Bytes, n: nat): Bytes {
    if n <= |s| then s[..n] else s
  }

  function Drop(s: Bytes, n: nat): Bytes {
    if n <= |s| then s[n..] else []
  }

  /** What one `recv(n)` returns: at most `n` bytes, all from the next chunk. */
  function RecvFrom(chunks: seq<Bytes>, n: nat): (r: (Bytes, seq<Bytes>)) {
    if chunks == [] || n == 0 then ([], chunks)
    else if |chunks[0]| <= n then (chunks[0], chunks[1..])
    else (chunks[0][..n], [chunks[0][n..]] + chunks[1..])
  }

  lemma NotEmpty(chunks: seq<Bytes>)
    requires Cut(chunks) && chunks != []
    ensures chunks[0] != [] && Flatten(chunks) != [] && Cut(chunks[1..])
  {
  }

  lemma Regroup(a: Bytes, b: Bytes, c: Bytes)
    ensures (a + b) + c == a + (b + c)
  {
  }

  lemma FlattenCons(chunk: Bytes, rest: seq<Bytes>)
    ensures Flatten([chunk] + rest) == chunk + Flatten(rest)
  {
    assert ([chunk] + rest)[1..] == rest;
  }

  lemma ChunkSplits(chunks: seq<Bytes>, n: nat)
    requires Cut(chunks) && chunks != [] && n < |chunks[0]|
    ensures var left := [chunks[0][n..]] + chunks[1..];
            Cut(left) && Flatten(chunks) == chunks[0][..n] + Flatten(left)
  {
    var got, kept, rest := chunks[0][..n], chunks[0][n..], chunks[1..];
    FlattenCons(kept, rest);
    Regroup(got, kept, Flatten(rest));
    assert chunks[0] == got + kept;
  }

  lemma RecvFromSplits(chunks: seq<Bytes>, n: nat)
    requires Cut(chunks)
    ensures var (got, left) := RecvFrom(chunks, n);
            && Cut(left)
            && Flatten(chunks) == got + Flatten(left)
            && |got| <= n
            && (got == [] <==> n == 0 || Flatten(chunks) == [])
  {
    if chunks == [] || n == 0 {
      assert RecvFrom(chunks, n) == ([], chunks);
    } else {
      NotEmpty(chunks);
      if |chunks[0]| > n {
        ChunkSplits(chunks, n);
      }
    }
  }

  class Socket {
    var chunks: seq<Bytes>
    var sent: Bytes

    ghost predicate Valid()
      reads this
    {
      Cut(chunks)
    }

    /** The bytes the peer has yet to hand over before closing its side. */
    ghost function Unread(): Bytes
      reads this
    {
      Flatten(chunks)
    }

    constructor (arriving: seq<Bytes>)
      requires Cut(arriving)
      ensures Valid() && Unread() == Flatten(arriving) && sent == []
    {
      chunks, sent := arriving, [];
    }

    method SendAll(data: Bytes)
      requires Valid()
      modifies this`sent
      ensures Valid() && sent == old(sent) + data
    {
      sent := sent + data;
    }

    /** Returns nothing only for an empty request or at the end of the stream. */
    method Recv(n: nat) returns (got: Bytes)
      requires Valid()
      modifies this`chunks
      ensures Valid()
      ensures old(Unread()) == got + Unread()
      ensures |got| <= n
      ensures got == [] <==> n == 0 || old(Unread()) == []
      ensures (got, chunks) == RecvFrom(old(chunks), n)
    {
      RecvFromSplits(chunks, n);
      var r := RecvFrom(chunks, n);
      got, chunks := r.0, r.1;
    }
  }

  /** Reads `count` bytes however they were cut, or all there are. */
  method RecvExact(sock: Socket, count: nat) returns (buffer: Bytes)
    requires sock.Valid()
    modifies sock`chunks
    ensures sock.Valid()
    ensures buffer == Take(old(sock.Unread()), count)
    ensures sock.Unread() == Drop(old(sock.Unread()), count)
  {
    buffer := [];
    ghost var stream := sock.Unread();
    while |buffer| < count
      invariant sock.Valid()
      invariant |buffer| <= count
      invariant stream == buffer + sock.Unread()
    {
      var chunk := sock.Recv(count - |buffer|);
      if chunk == [] {
        break;
      }
      assert (buffer + chunk) + sock.Unread() == buffer + (chunk + sock.Unread());
      buffer := buffer + chunk;
    }
    assert |buffer| == count || sock.Unread() == [];
    assert stream[..|buffer|] == buffer && stream[|buffer|..] == sock.Unread();
  }

  // ------------------------------------------------------------- the addresses

  /** A destination: a numeric IPv4 address, or a name as its IDNA codec left it. */
  datatype Target =
    | Address(octets: Bytes)
    | Name(encoded: Bytes)
    | Unencodable // the codec refused the name

  ghost predicate WellFormed(target: Target) {
    target.Address? ==> |target.octets| == 4
  }

  datatype Fault =
    | BadName     // UnicodeError from the codec
    | NameTooLong // ValueError from bytes([len(name)])
    | PortRange   // OverflowError from to_bytes(2, "big")
    | EmptyRead   // IndexError from recv_exact(sock, 1)[0]

  datatype Answer = Returned(reached: bool) | Raised(fault: Fault)

  datatype Encoding = Sent(bytes: Bytes) | Refused(fault: Fault)

  const GREETING: Bytes := [5, 1, 0]
  const METHOD_CHOSEN: Bytes := [5, 0]

  function PortBytes(port: nat): Bytes
    requires port < 0x10000
  {
    [port / 256, port % 256]
  }

  /** The CONNECT request, with the exceptions in the order they are met. */
  function EncodeRequest(target: Target, port: nat): Encoding {
    match target
    case Unencodable => Refused(BadName)
    case Name(name) =>
      if |name| >= 256 then Refused(NameTooLong)
      else if port >= 0x10000 then Refused(PortRange)
      else Sent([5, 1, 0] + [3, |name|] + name + PortBytes(port))
    case Address(octets) =>
      if port >= 0x10000 then Refused(PortRange)
      else Sent([5, 1, 0] + [1] + octets + PortBytes(port))
  }

  // -------------------------------------------------------- the client's verdict

  /** What the client answers, what it has sent, and where the stream then stands. */
  datatype Session = Session(answer: Answer, sent: Bytes, unread: Bytes)

  function Verdict(stream: Bytes, target: Target, port: nat): Session {
    var s1 := Drop(stream, 2);
    if Take(stream, 2) != METHOD_CHOSEN then Session(Returned(false), GREETING, s1)
    else match EncodeRequest(target, port)
      case Refused(fault) => Session(Raised(fault), GREETING, s1)
      case Sent(request) =>
        var (answer, rest) := ReadReply(s1);
        Session(answer, GREETING + request, rest)
  }

  function ReadReply(stream: Bytes): (Answer, Bytes) {
    var reply, s := Take(stream, 4), Drop(stream, 4);
    if |reply| < 4 || reply[0] != 5 || reply[1] != 0 then (Returned(false), s)
    else if reply[3] == 1 then (Returned(true), Drop(s, 4 + 2))
    else if reply[3] == 4 then (Returned(true), Drop(s, 16 + 2))
    else if reply[3] != 3 then (Returned(false), s)
    else if s == [] then (Raised(EmptyRead), [])
    else (Returned(true), Drop(s[1..], s[0] as int + 2))
  }

  /**
   The client itself, byte by byte off the socket. The postconditions make its
   answer, its output and the unread suffix functions of the stream alone, so
   they are the same for every way the stream was cut.
   */
  method Socks5Reaches(sock: Socket, target: Target, port: nat) returns (answer: Answer)
    requires sock.Valid()
    modifies sock
    ensures sock.Valid()
    ensures var v := Verdict(old(sock.Unread()), target, port);
            && answer == v.answer
            && sock.sent == old(sock.sent) + v.sent
            && sock.Unread() == v.unread
  {
    ghost var stream := sock.Unread();
    sock.SendAll(GREETING);
    var hello := RecvExact(sock, 2);
    if hello != METHOD_CHOSEN {
      return Returned(false);
    }
    var encoding := EncodeRequest(target, port);
    if encoding.Refused? {
      return Raised(encoding.fault);
    }
    sock.SendAll(encoding.bytes);
    assert sock.sent == old(sock.sent) + (GREETING + encoding.bytes);

    var reply := RecvExact(sock, 4);
    if |reply| < 4 || reply[0] != 5 || reply[1] != 0 {
      return Returned(false);
    }
    var atyp := reply[3];
    var rest: nat;
    if atyp == 1 {
      rest := 4;
    } else if atyp == 4 {
      rest := 16;
    } else if atyp == 3 {
      var length := RecvExact(sock, 1);
      if length == [] {
        return Raised(EmptyRead);
      }
      rest := length[0];
    } else {
      return Returned(false);
    }
    var _ := RecvExact(sock, rest + 2);
    return Returned(true);
  }

  /** Two sockets with the same bytes, cut differently, are told apart by nothing. */
  method CutsAgree(a: Socket, b: Socket, target: Target, port: nat) returns (x: Answer, y: Answer)
    requires a != b && a.Valid() && b.Valid()
    requires a.Unread() == b.Unread() && a.sent == b.sent
    modifies a, b
    ensures x == y && a.Unread() == b.Unread() && a.sent == b.sent
  {
    x := Socks5Reaches(a, target, port);
    y := Socks5Reaches(b, target, port);
  }

  // ------------------------------------------------ the server's side of RFC 1928

  /** A request as a server reads it: sections 4 and 5 of RFC 1928. */
  datatype Request = Request(command: Byte, target: Target, port: nat, leftover: Bytes)

  function DecodePort(s: Bytes): Option<(nat, Bytes)> {
    if |s| < 2 then None else Some((256 * (s[0] as int) + s[1], s[2..]))
  }

  function DecodeRequest(s: Bytes): Option<Request> {
    if |s| < 4 || s[0] != 5 || s[2] != 0 then None
    else
      var body := s[4..];
      if s[3] == 1 && |body| >= 4 then
        FinishRequest(s[1], Address(body[..4]), body[4..])
      else if s[3] == 3 && |body| >= 1 && |body| >= 1 + body[0] as int then
        FinishRequest(s[1], Name(body[1..1 + body[0] as int]), body[1 + body[0] as int..])
      else None
  }

  function FinishRequest(command: Byte, target: Target, s: Bytes): Option<Request> {
    match DecodePort(s)
    case None => None
    case Some((port, leftover)) => Some(Request(command, target, port, leftover))
  }

  lemma PortRoundTrip(port: nat, tail: Bytes)
    requires port < 0x10000
    ensures DecodePort(PortBytes(port) + tail) == Some((port, tail))
  {
  }

  /**
   The server recovers exactly the target and port the client was given, with
   nothing left over, and the client refuses exactly the rest.
   */
  lemma RequestRoundTrip(target: Target, port: nat)
    requires WellFormed(target)
    ensures EncodeRequest(target, port).Refused? <==> target.Unencodable? || (target.Name? && |target.encoded| > 255) || port > 65535
    ensures EncodeRequest(target, port).Sent? ==>
              DecodeRequest(EncodeRequest(target, port).bytes) == Some(Request(1, target, port, []))
  {
    match EncodeRequest(target, port) {
      case Refused(_) =>
      case Sent(bytes) =>
        PortRoundTrip(port, []);
        assert PortBytes(port) + [] == PortBytes(port);
        var body := bytes[4..];
        if target.Name? {
          var n := |target.encoded|;
          assert body == [n] + target.encoded + PortBytes(port);
          assert body[1..1 + n] == target.encoded;
          assert body[1 + n..] == PortBytes(port);
        } else {
          assert body == target.octets + PortBytes(port);
          assert body[..4] == target.octets && body[4..] == PortBytes(port);
        }
    }
  }

  /** The bound address a server reports: section 6 of RFC 1928. */
  datatype Bound = BoundV4(v4: Bytes) | BoundV6(v6: Bytes) | BoundName(name: Bytes)

  ghost predicate ValidBound(bound: Bound) {
    match bound
    case BoundV4(a) => |a| == 4
    case BoundV6(a) => |a| == 16
    case BoundName(a) => |a| <= 255
  }

  function BoundType(bound: Bound): Byte {
    match bound
    case BoundV4(_) => 1
    case BoundV6(_) => 4
    case BoundName(_) => 3
  }

  function BoundAddress(bound: Bound): Bytes
    requires ValidBound(bound)
  {
    match bound
    case BoundV4(a) => a
    case BoundV6(a) => a
    case BoundName(a) => [|a|] + a
  }

  function EncodeReply(code: Byte, reserved: Byte, bound: Bound, port: nat): Bytes
    requires ValidBound(bound) && port < 0x10000
  {
    [5, code, reserved, BoundType(bound)] + (BoundAddress(bound) + PortBytes(port))
  }

  /**
   After a complete reply the unread stream is exactly what follows BND.PORT,
   so a TLS handshake starts at its first byte; the client says True for reply
   code zero and for no other.
   */
  lemma CompleteReply(code: Byte, reserved: Byte, bound: Bound, bndPort: nat, tail: Bytes, target: Target, port: nat)
    requires ValidBound(bound) && bndPort < 0x10000
    requires EncodeRequest(target, port).Sent?
    ensures var v := Verdict([5, 0] + EncodeReply(code, reserved, bound, bndPort) + tail, target, port);
            && v.answer == Returned(code == 0)
            && (code == 0 ==> v.unread == tail)
  {
    var reply := EncodeReply(code, reserved, bound, bndPort);
    var stream := [5, 0] + reply + tail;
    assert Take(stream, 2) == METHOD_CHOSEN;
    assert Drop(stream, 2) == reply + tail;
    ReplyConsumed(code, reserved, bound, bndPort, tail);
  }

  lemma ReplyConsumed(code: Byte, reserved: Byte, bound: Bound, port: nat, tail: Bytes)
    requires ValidBound(bound) && port < 0x10000
    ensures var (answer, unread) := ReadReply(EncodeReply(code, reserved, bound, port) + tail);
            && answer == Returned(code == 0)
            && (code == 0 ==> unread == tail)
  {
  }

  // ------------------------------------------------------------ truncated replies

  /** Where the reply claims to end in the stream, once enough of it is there to tell. */
  function ReplyEnd(stream: Bytes): Option<nat> {
    if |stream| < 6 then None
    else if stream[5] == 1 then Some(2 + 4 + 4 + 2)
    else if stream[5] == 4 then Some(2 + 4 + 16 + 2)
    else if stream[5] == 3 && |stream| >= 7 then Some(2 + 4 + 1 + stream[6] as int + 2)
    else None
  }

  /** The proxy goes on without a password. */
  predicate Welcomed(stream: Bytes) {
    |stream| >= 2 && stream[0] == 5 && stream[1] == 0
  }

  /** And its reply begins with success. */
  predicate Accepted(stream: Bytes) {
    |stream| >= 6 && stream[0] == 5 && stream[1] == 0 && stream[2] == 5 && stream[3] == 0
  }

  /**
   The answer for every stream, complete or cut short. True needs only the
   first four bytes of the reply (five for a name); a name reply whose length
   byte is missing is the one stream on which the read fails.
   */
  lemma AnswerForEveryStream(stream: Bytes, target: Target, port: nat)
    requires EncodeRequest(target, port).Sent?
    ensures var v := Verdict(stream, target, port);
            && (v.answer == Returned(true) <==> Accepted(stream) && ReplyEnd(stream).Some?)
            && (v.answer == Raised(EmptyRead) <==> Accepted(stream) && stream[5] == 3 && |stream| == 6)
            && (v.answer.Raised? ==> v.answer == Raised(EmptyRead))
  {
    assert Take(stream, 2) == METHOD_CHOSEN <==> Welcomed(stream);
  }

  /**
   How far a True answer can be trusted: the stream then stands right after the
   reply it claimed, which is behind the last byte read when the reply was whole
   and at the end of the stream, with nothing for TLS to read, when it was not.
   */
  lemma TrueLeavesReplyBehind(stream: Bytes, target: Target, port: nat)
    requires Verdict(stream, target, port).answer == Returned(true)
    ensures ReplyEnd(stream).Some?
    ensures var end := ReplyEnd(stream).value;
            Verdict(stream, target, port).unread == (if |stream| >= end then stream[end..] else [])
  {
    AnswerForEveryStream(stream, target, port);
  }

  /** And otherwise: two bytes are read before the request, six before the client gives up. */
  lemma FalseLeavesRest(stream: Bytes, target: Target, port: nat)
    requires Verdict(stream, target, port).answer != Returned(true)
    ensures var read := if Welcomed(stream) && EncodeRequest(target, port).Sent? then 6 else 2;
            Verdict(stream, target, port).unread == (if |stream| >= read then stream[read..] else [])
  {
    assert Take(stream, 2) == METHOD_CHOSEN <==> Welcomed(stream);
  }

  /**
   What the server sees, on every stream: the greeting of section 3 of RFC 1928
   with the one method that needs no password, and, exactly when the server has
   chosen it and the target can be named, one CONNECT request for this target
   and port and not a byte more.
   */
  lemma WhatTheServerSees(stream: Bytes, target: Target, port: nat)
    requires WellFormed(target)
    ensures var sent := Verdict(stream, target, port).sent;
            && |sent| >= 3 && sent[..3] == [5, 1, 0]
            && if Welcomed(stream) && EncodeRequest(target, port).Sent? then
                 DecodeRequest(sent[3..]) == Some(Request(1, target, port, []))
               else
                 |sent| == 3
  {
    assert Take(stream, 2) == METHOD_CHOSEN <==> Welcomed(stream);
    RequestRoundTrip(target, port);
    match EncodeRequest(target, port) {
      case Sent(bytes) => AfterGreeting(bytes);
      case Refused(_) =>
    }
  }

  lemma AfterGreeting(bytes: Bytes)
    ensures (GREETING + bytes)[..3] == [5, 1, 0] && (GREETING + bytes)[3..] == bytes
  {
  }

  /** A target that cannot be named raises, and only once the server has answered the greeting. */
  lemma RefusedTargetRaises(stream: Bytes, target: Target, port: nat)
    requires EncodeRequest(target, port).Refused?
    ensures Verdict(stream, target, port).answer ==
              if Welcomed(stream) then
                Raised(if target.Unencodable? then BadName else if target.Name? && |target.encoded| > 255 then NameTooLong else PortRange)
              else
                Returned(false)
  {
    assert Take(stream, 2) == METHOD_CHOSEN <==> Welcomed(stream);
  }

  /** Six bytes are enough for a True: four of the reply's ten, and an address and port that never came. */
  lemma TrueOnTruncatedReply(target: Target, port: nat)
    requires EncodeRequest(target, port).Sent?
    ensures var v := Verdict([5, 0, 5, 0, 0, 1], target, port);
            v.answer == Returned(true) && v.unread == []
    ensures ReplyEnd([5, 0, 5, 0, 0, 1]) == Some(12)
  {
    AnswerForEveryStream([5, 0, 5, 0, 0, 1], target, port);
    TrueLeavesReplyBehind([5, 0, 5, 0, 0, 1], target, port);
  }

  // ---------------------------------------------------- the HTTP probe, a contrast

  const OK_MARK: Bytes := [32, 50, 48, 48, 32] // " 200 "

  predicate MarkAt(s: Bytes, i: int, pattern: Bytes) {
    0 <= i <= |s| - |pattern| && s[i..i + |pattern|] == pattern
  }

  ghost predicate Contains(s: Bytes, pattern: Bytes) {
    exists i :: MarkAt(s, i, pattern)
  }

  /** `http_reaches` looks only at what a single `recv(128)` returned. */
  method HttpReaches(sock: Socket, request: Bytes) returns (reached: bool)
    requires sock.Valid()
    modifies sock
    ensures sock.Valid()
    ensures reached == HttpAnswer(old(sock.chunks))
    ensures sock.sent == old(sock.sent) + request && sock.chunks == RecvFrom(old(sock.chunks), 128).1
  {
    sock.SendAll(request);
    var got := sock.Recv(128);
    reached := exists i | 0 <= i <= |got| :: MarkAt(got, i, OK_MARK);
  }

  ghost predicate HttpAnswer(chunks: seq<Bytes>) {
    Contains(RecvFrom(chunks, 128).0, OK_MARK)
  }

  /** " 200 ", byte by byte. */
  ghost predicate SaysOk(got: Bytes, i: nat) {
    i + 5 <= |got| && got[i] == 32 && got[i + 1] == 50 && got[i + 2] == 48 && got[i + 3] == 48 && got[i + 4] == 32
  }

  /** The answer is yes exactly when the first 128 bytes of the first piece say so. */
  lemma HttpAnswerExactly(chunks: seq<Bytes>)
    ensures var got := if chunks == [] then [] else Take(chunks[0], 128);
            HttpAnswer(chunks) <==> exists i: nat :: SaysOk(got, i)
  {
    var got := RecvFrom(chunks, 128).0;
    assert got == if chunks == [] then [] else Take(chunks[0], 128);
    if Contains(got, OK_MARK) {
      var i :| MarkAt(got, i, OK_MARK);
      var part := got[i..i + 5];
      assert part == OK_MARK && part[0] == got[i] && part[1] == got[i + 1];
      assert part[2] == got[i + 2] && part[3] == got[i + 3] && part[4] == got[i + 4];
      assert SaysOk(got, i);
    }
    if exists i: nat :: SaysOk(got, i) {
      var i: nat :| SaysOk(got, i);
      assert got[i..i + 5] == OK_MARK;
      assert MarkAt(got, i, OK_MARK);
    }
  }

  ghost predicate SameForEveryCut(stream: Bytes) {
    forall a, b :: Cut(a) && Cut(b) && Flatten(a) == stream && Flatten(b) == stream ==> HttpAnswer(a) == HttpAnswer(b)
  }

  lemma ContainsPrefix(s: Bytes, n: nat, pattern: Bytes)
    requires Contains(Take(s, n), pattern)
    ensures Contains(s, pattern)
  {
    var t := Take(s, n);
    var i :| MarkAt(t, i, pattern);
    assert s[i..i + |pattern|] == t[i..i + |pattern|];
    assert MarkAt(s, i, pattern);
  }

  /**
   Where the single read is enough: the HTTP probe's answer is independent of
   the cut exactly when the mark is not in the first 128 bytes, that is, exactly
   when the proxy did not say yes.
   */
  lemma HttpAnswerDependsOnCut(stream: Bytes)
    ensures SameForEveryCut(stream) <==> !Contains(Take(stream, 128), OK_MARK)
  {
    if Contains(Take(stream, 128), OK_MARK) {
      ContainsPrefix(stream, 128, OK_MARK);
      var whole, split := [stream], [stream[..1], stream[1..]];
      assert Flatten(split) == stream by {
        assert split[1..] == [stream[1..]];
        assert Flatten([stream[1..]]) == stream[1..] + Flatten([]);
      }
      assert Flatten(whole) == stream + Flatten([]);
      assert HttpAnswer(whole) && !HttpAnswer(split);
    } else {
      forall a | Cut(a) && Flatten(a) == stream ensures !HttpAnswer(a) {
        RecvFromSplits(a, 128);
        var got := RecvFrom(a, 128).0;
        assert got == Take(Take(stream, 128), |got|);
        if Contains(got, OK_MARK) {
          ContainsPrefix(Take(stream, 128), |got|, OK_MARK);
        }
      }
    }
  }
}
