/**
 Length-prefixed messages: a four-byte big-endian length, then the payload. The service's socket
 refuses empty messages; the guest's framing accepts them.
 */
module Framing {
  type byte = b: int | 0 <= b < 256

  type bytes = seq<byte>

  const WORD32: nat := 0x1_0000_0000
  const LIMIT: nat := 10 * 1024 * 1024

  /** The shortest payload each reader accepts. */
  const SOCKET: nat := 1
  const GUEST: nat := 0

  /** How a `ReadFull` that wanted bytes failed: before the first one, or after it. */
  datatype Cause = EOF | UnexpectedEOF

  datatype ReadError = Header(cause: Cause) | ZeroLength | TooLarge(length: nat) | Payload(cause: Cause)

  datatype Frame = Got(payload: bytes, rest: bytes) | Failed(error: ReadError, rest: bytes)

  function PutUint32(n: nat): (b: bytes)
    ensures |b| == 4
  {
    [n / 0x100_0000 % 256, n / 0x1_0000 % 256, n / 0x100 % 256, n % 256]
  }

  function Uint32(b: bytes): (n: nat)
    requires |b| == 4
    ensures n < WORD32
  {
    b[0] as int * 0x100_0000 + b[1] as int * 0x1_0000 + b[2] as int * 0x100 + b[3] as int
  }

  /** A frame as both writers make it; the length is cut to 32 bits. */
  function Encode(m: bytes): bytes {
    PutUint32(|m| % WORD32) + m
  }

  function EncodeAll(ms: seq<bytes>): bytes {
    if ms == [] then [] else Encode(ms[0]) + EncodeAll(ms[1..])
  }

  function CauseOf(available: nat): Cause {
    if available == 0 then EOF else UnexpectedEOF
  }

  function ReadFrame(shortest: nat, s: bytes): (f: Frame)
    ensures f.Got? ==> |f.rest| + 4 <= |s|
  {
    if |s| < 4 then Failed(Header(CauseOf(|s|)), [])
    else
      var n := Uint32(s[..4]);
      if n < shortest then Failed(ZeroLength, s[4..])
      else if n > LIMIT then Failed(TooLarge(n), s[4..])
      else if |s| - 4 < n then Failed(Payload(CauseOf(|s| - 4)), [])
      else Got(s[4..4 + n], s[4 + n..])
  }

  /** Everything a reader gets out of a stream, and the error that ends it. */
  datatype Outcome = Outcome(messages: seq<bytes>, error: ReadError)

  function ReadAll(shortest: nat, s: bytes): Outcome
    decreases |s|
  {
    match ReadFrame(shortest, s)
    case Failed(error, _) => Outcome([], error)
    case Got(payload, rest) =>
      var later := ReadAll(shortest, rest);
      Outcome([payload] + later.messages, later.error)
  }

  function After(ms: seq<bytes>, later: Outcome): Outcome {
    Outcome(ms + later.messages, later.error)
  }

  lemma AfterCons(ms: seq<bytes>, later: Outcome)
    requires ms != []
    ensures After([ms[0]], After(ms[1..], later)) == After(ms, later)
  {
    assert [ms[0]] + (ms[1..] + later.messages) == ms + later.messages;
  }

  predicate Fits(shortest: nat, m: bytes) {
    shortest <= |m| <= LIMIT
  }

  predicate AllFit(shortest: nat, ms: seq<bytes>) {
    forall m :: m in ms ==> Fits(shortest, m)
  }

  // ---- One frame ----

  lemma Uint32OfPut(n: nat)
    requires n < WORD32
    ensures Uint32(PutUint32(n)) == n
  {
    var a, b, c := n / 0x100, n / 0x1_0000, n / 0x100_0000;
    assert b == a / 0x100 && c == b / 0x100;
    assert c < 256;
    assert n == a * 0x100 + n % 256 && a == b * 0x100 + a % 256 && b == c * 0x100 + b % 256;
  }

  lemma ReadEncoded(m: bytes, rest: bytes)
    ensures var s := Encode(m) + rest;
            |s| == 4 + |m| + |rest| && s[..4] == PutUint32(|m| % WORD32) && s[4..] == m + rest && Uint32(s[..4]) == |m| % WORD32
  {
    Uint32OfPut(|m| % WORD32);
    var s := Encode(m) + rest;
    assert s[..4] == PutUint32(|m| % WORD32);
    assert s[4..] == m + rest;
  }

  /** A frame is read back as it was written exactly when its payload is within the reader's bounds. */
  lemma ReadBackIff(shortest: nat, m: bytes, rest: bytes)
    requires shortest <= 1
    ensures ReadFrame(shortest, Encode(m) + rest) == Got(m, rest) <==> Fits(shortest, m)
  {
    ReadEncoded(m, rest);
    var s := Encode(m) + rest;
    if Fits(shortest, m) {
      assert s[4..4 + |m|] == s[4..][..|m|] == m;
      assert s[4 + |m|..] == s[4..][|m|..] == rest;
    } else if |m| < WORD32 {
      assert |m| % WORD32 == |m|;
    } else {
      assert |m| % WORD32 < |m|;
    }
  }

  /** A payload over the limit that still fits in 32 bits is refused with its length. */
  lemma OversizeRefused(shortest: nat, m: bytes, rest: bytes)
    requires shortest <= 1 && LIMIT < |m| < WORD32
    ensures ReadFrame(shortest, Encode(m) + rest) == Failed(TooLarge(|m|), m + rest)
  {
    ReadEncoded(m, rest);
    TooLong(shortest, Encode(m) + rest, |m|);
  }

  lemma TooLong(shortest: nat, s: bytes, n: nat)
    requires |s| >= 4 && Uint32(s[..4]) == n && shortest <= n && LIMIT < n
    ensures ReadFrame(shortest, s) == Failed(TooLarge(n), s[4..])
  {
  }

  // ---- Whole streams ----

  lemma {:induction false} ReadAllOne(shortest: nat, m: bytes, tail: bytes)
    requires shortest <= 1 && Fits(shortest, m)
    ensures ReadAll(shortest, Encode(m) + tail)
            == After([m], ReadAll(shortest, tail))
  {
    ReadBackIff(shortest, m, tail);
  }

  lemma EncodeAllCons(ms: seq<bytes>, tail: bytes)
    requires ms != []
    ensures EncodeAll(ms) + tail == Encode(ms[0]) + (EncodeAll(ms[1..]) + tail)
  {
  }

  /** Frames that fit come out first, in order, whatever follows them. */
  lemma {:induction false} ReadAllPrepend(shortest: nat, ms: seq<bytes>, tail: bytes)
    requires shortest <= 1 && AllFit(shortest, ms)
    ensures ReadAll(shortest, EncodeAll(ms) + tail)
            == After(ms, ReadAll(shortest, tail))
    decreases |ms|
  {
    if ms == [] {
      assert EncodeAll(ms) + tail == tail;
    } else {
      var tail1 := EncodeAll(ms[1..]) + tail;
      ReadAllPrepend(shortest, ms[1..], tail);
      ReadAllOne(shortest, ms[0], tail1);
      AfterCons(ms, ReadAll(shortest, tail));
      EncodeAllCons(ms, tail);
    }
  }

  /** Reading a stream of frames that fit gives exactly those messages, then the end of the stream. */
  lemma StreamRoundTrip(shortest: nat, ms: seq<bytes>)
    requires shortest <= 1 && AllFit(shortest, ms)
    ensures ReadAll(shortest, EncodeAll(ms)) == Outcome(ms, Header(EOF))
  {
    ReadAllPrepend(shortest, ms, []);
    assert EncodeAll(ms) + [] == EncodeAll(ms) && ms + [] == ms;
  }

  /** The error a reader meets `cut` bytes into a frame that is not whole. */
  function CutError(cut: nat): ReadError {
    if cut < 4 then Header(CauseOf(cut)) else Payload(CauseOf(cut - 4))
  }

  lemma CutFrame(shortest: nat, m: bytes, cut: nat)
    requires shortest <= 1 && Fits(shortest, m) && cut < |Encode(m)|
    ensures ReadAll(shortest, Encode(m)[..cut]) == Outcome([], CutError(cut))
  {
    var s := Encode(m)[..cut];
    if 4 <= cut {
      Uint32OfPut(|m|);
      assert s[..4] == PutUint32(|m|);
    }
  }

  lemma {:induction false} EncodeAllSplit(ms: seq<bytes>, j: nat)
    requires j <= |ms|
    ensures EncodeAll(ms) == EncodeAll(ms[..j]) + EncodeAll(ms[j..])
    decreases j
  {
    if j == 0 {
      assert ms[..0] == [] && ms[0..] == ms;
    } else {
      EncodeAllSplit(ms[1..], j - 1);
      assert ms[..j][1..] == ms[1..][..j - 1] && ms[1..][j - 1..] == ms[j..];
      assert EncodeAll(ms) == Encode(ms[0]) + (EncodeAll(ms[..j][1..]) + EncodeAll(ms[j..]));
    }
  }

  lemma CutPiece(whole: bytes, before: bytes, frame: bytes, after: bytes, cut: nat)
    requires whole == before + (frame + after) && cut < |frame|
    ensures |before| + cut <= |whole| && whole[..|before| + cut] == before + frame[..cut]
  {
  }

  /**
   A stream cut anywhere gives exactly the messages that are wholly before the cut, and then the
   error that says where in the next frame the cut is: never a wrong message.
   */
  lemma TruncatedStream(shortest: nat, ms: seq<bytes>, j: nat, cut: nat)
    requires shortest <= 1 && AllFit(shortest, ms) && j < |ms| && cut < |Encode(ms[j])|
    ensures |EncodeAll(ms[..j])| + cut <= |EncodeAll(ms)|
    ensures ReadAll(shortest, EncodeAll(ms)[..|EncodeAll(ms[..j])| + cut]) == Outcome(ms[..j], CutError(cut))
  {
    EncodeAllSplit(ms, j);
    var before, frame := EncodeAll(ms[..j]), Encode(ms[j]);
    CutPiece(EncodeAll(ms), before, frame, EncodeAll(ms[j..][1..]), cut);
    ReadAllPrepend(shortest, ms[..j], frame[..cut]);
    CutFrame(shortest, ms[j], cut);
    assert ms[..j] + [] == ms[..j];
  }

  /** Every cut short of the whole stream falls in one frame. */
  lemma {:induction false} CutLiesInOneFrame(ms: seq<bytes>, k: nat) returns (j: nat, cut: nat)
    requires k < |EncodeAll(ms)|
    ensures j < |ms| && cut < |Encode(ms[j])| && k == |EncodeAll(ms[..j])| + cut
    decreases |ms|
  {
    if k < |Encode(ms[0])| {
      j, cut := 0, k;
    } else {
      j, cut := CutLiesInOneFrame(ms[1..], k - |Encode(ms[0])|);
      assert ms[..j + 1][1..] == ms[1..][..j];
      j := j + 1;
    }
  }

  /** What the guest's reader returns: the cause alone, so the two places a read can fail look the same. */
  function GuestError(e: ReadError): (cause: Cause)
    requires e.Header? || e.Payload?
  {
    e.cause
  }

  /**
   The guest's reader reports a clean close exactly when the stream ends between two frames or
   right after a header, although in the second case a message is missing.
   */
  lemma CleanCloseIff(ms: seq<bytes>, j: nat, cut: nat)
    requires AllFit(GUEST, ms) && j < |ms| && cut < |Encode(ms[j])|
    requires |EncodeAll(ms[..j])| + cut <= |EncodeAll(ms)|
    ensures var e := ReadAll(GUEST, EncodeAll(ms)[..|EncodeAll(ms[..j])| + cut]).error;
            (e.Header? || e.Payload?) && (GuestError(e) == EOF <==> cut == 0 || cut == 4)
  {
    TruncatedStream(GUEST, ms, j, cut);
  }

  // ---- The connection ----

  class Conn {
    var input: bytes
    var output: bytes

    constructor (input: bytes)
      ensures this.input == input && output == []
    {
      this.input, output := input, [];
    }

    /** One read: some of what is there, at least a byte, or nothing at the end. */
    method Read(buf: array<byte>, at: nat) returns (n: nat)
      requires at < buf.Length
      modifies this`input, buf
      ensures n <= |old(input)| && n <= buf.Length - at && (n == 0 <==> old(input) == [])
      ensures input == old(input)[n..]
      ensures buf[..at] == old(buf[..at]) && buf[at..at + n] == old(input)[..n]
    {
      if input == [] { return 0; }
      var most := if |input| < buf.Length - at then |input| else buf.Length - at;
      n :| 1 <= n <= most;
      forall k | 0 <= k < n {
        buf[at + k] := input[k];
      }
      input := input[n..];
    }

    /** `io.ReadFull`. */
    method ReadFull(buf: array<byte>) returns (got: nat)
      modifies this`input, buf
      ensures got == if |old(input)| < buf.Length then |old(input)| else buf.Length
      ensures buf[..got] == old(input)[..got] && input == old(input)[got..]
    {
      ghost var all := input;
      got := 0;
      while got < buf.Length
        invariant got <= buf.Length && got <= |all|
        invariant buf[..got] == all[..got] && input == all[got..]
        decreases buf.Length - got
      {
        var n := Read(buf, got);
        if n == 0 { return; }
        assert buf[..got + n] == buf[..got] + buf[got..got + n];
        assert all[got..][..n] == all[got..got + n] && all[got..][n..] == all[got + n..];
        assert all[..got + n] == all[..got] + all[got..got + n];
        got := got + n;
      }
    }

    /** Both readers: `ReadMessage` with `shortest` one, `readFramed` with zero. */
    method ReadMessage(shortest: nat) returns (f: Frame)
      requires shortest <= 1
      modifies this`input
      ensures f == ReadFrame(shortest, old(input)) && input == f.rest
    {
      ghost var all := input;
      var head := new byte[4];
      var got := ReadFull(head);
      if got < 4 { return Failed(Header(CauseOf(got)), []); }
      assert head[..] == head[..4] == all[..4];
      var length := Uint32(head[..]);
      if shortest > 0 && length == 0 { return Failed(ZeroLength, input); }
      if length > LIMIT { return Failed(TooLarge(length), input); }
      var payload := new byte[length];
      got := ReadFull(payload);
      if got < length { return Failed(Payload(CauseOf(got)), []); }
      assert payload[..] == payload[..length] == all[4..][..length] == all[4..4 + length];
      assert all[4..][length..] == all[4 + length..];
      return Got(payload[..], input);
    }

    /** One write of the whole buffer; a failing one sends only a part of it. */
    method Write(buf: array<byte>) returns (ok: bool)
      modifies this`output
      ensures ok ==> output == old(output) + buf[..]
      ensures !ok ==> old(output) <= output < old(output) + buf[..]
    {
      var n: nat :| n <= buf.Length;
      output := output + buf[..n];
      ok := n == buf.Length;
      assert ok ==> buf[..n] == buf[..];
    }

    method WriteMessage(data: bytes) returns (ok: bool)
      modifies this`output
      ensures ok ==> output == old(output) + Encode(data)
      ensures !ok ==> old(output) <= output < old(output) + Encode(data)
    {
      var buf := new byte[4 + |data|];
      var v := |data| % WORD32;
      buf[0], buf[1] := v / 0x100_0000 % 256, v / 0x1_0000 % 256;
      buf[2], buf[3] := v / 0x100 % 256, v % 256;
      forall k | 0 <= k < |data| {
        buf[4 + k] := data[k];
      }
      assert buf[..] == Encode(data);
      ok := Write(buf);
    }
  }
}
