/** The 9-byte heartbeat frames of internal/peer/protocol.go. */
module Wire {
  import opened Wrappers

  newtype byte = x: int | 0 <= x < 256

  const TWO_63 := 0x8000_0000_0000_0000
  const TWO_64 := 0x1_0000_0000_0000_0000

  newtype int64 = x: int | -0x8000_0000_0000_0000 <= x < 0x8000_0000_0000_0000

  const MSG_SIZE := 9

  datatype Message = Message(kind: byte, timestamp: int64)

  /** Go's conversions between int64 and uint64 keep the bit pattern. */
  function ToUnsigned(t: int64): int {
    if t < 0 then t as int + TWO_64 else t as int
  }

  function ToSigned(u: int): int64
    requires 0 <= u < TWO_64
  {
    if u >= TWO_63 then (u - TWO_64) as int64 else u as int64
  }

  /** The number that a big-endian digit string denotes. */
  function Number(b: seq<byte>): int {
    if b == [] then 0 else Number(b[..|b| - 1]) * 256 + b[|b| - 1] as int
  }

  function Power256(n: nat): int {
    if n == 0 then 1 else 256 * Power256(n - 1)
  }

  /** The `n` low-order big-endian digits of u. */
  function Digits(u: int, n: nat): (b: seq<byte>)
    requires u >= 0
    ensures |b| == n
  {
    if n == 0 then [] else Digits(u / 256, n - 1) + [(u % 256) as byte]
  }

  lemma {:induction false} NumberOfDigits(u: int, n: nat)
    requires 0 <= u < Power256(n)
    ensures Number(Digits(u, n)) == u
  {
    if n == 0 {
    } else {
      NumberOfDigits(u / 256, n - 1);
      assert Digits(u, n)[..n - 1] == Digits(u / 256, n - 1);
    }
  }

  lemma {:induction false} DigitsOfNumber(b: seq<byte>)
    ensures 0 <= Number(b) < Power256(|b|) && Digits(Number(b), |b|) == b
  {
    if b == [] {
    } else {
      var n := |b| - 1;
      DigitsOfNumber(b[..n]);
      assert Number(b) / 256 == Number(b[..n]) && Number(b) % 256 == b[n] as int;
      assert b == b[..n] + [b[n]];
    }
  }

  lemma EightDigits()
    ensures Power256(8) == TWO_64
  {
    assert Power256(4) == 0x1_0000_0000;
  }

  function Encoded(m: Message): (b: seq<byte>)
    ensures |b| == MSG_SIZE
  {
    [m.kind] + Digits(ToUnsigned(m.timestamp), 8)
  }

  lemma AtLeastOnce(a: int, d: int)
    requires a >= 1 && d > 0
    ensures a * d >= d
  {
  }

  lemma DivisionIsUnique(d: int, q: int, r: int, q': int, r': int)
    requires q * d + r == q' * d + r' && 0 <= r < d && 0 <= r' < d
    ensures q == q'
  {
    assert (q - q') * d == q * d - q' * d == r' - r;
    assert (q' - q) * d == q' * d - q * d == r - r';
    if q > q' {
      AtLeastOnce(q - q', d);
    } else if q < q' {
      AtLeastOnce(q' - q, d);
    }
  }

  lemma DivideTwice(u: int, p: int)
    requires u >= 0 && p > 0
    ensures u / 256 / p == u / (256 * p)
  {
    var q, r, d := u / 256, u % 256, 256 * p;
    var a, b := q / p, q % p;
    assert q == a * p + b && a * d == 256 * (a * p);
    DivisionIsUnique(d, a, 256 * b + r, u / d, u % d);
  }

  /** Digits come with the most significant one first. */
  lemma {:induction false} DigitAt(u: int, n: nat, k: nat)
    requires u >= 0 && k < n
    ensures Power256(n - 1 - k) > 0 && Digits(u, n)[k] as int == u / Power256(n - 1 - k) % 256
  {
    if k == n - 1 {
    } else {
      DigitAt(u / 256, n - 1, k);
      DivideTwice(u, Power256(n - 2 - k));
    }
  }

  /** The bytes of a frame: the type, then the timestamp in two's complement with its most significant byte
      first. */
  lemma FrameLayout(m: Message)
    ensures Encoded(m)[0] == m.kind
    ensures exists u :: 0 <= u < TWO_64 && (u - m.timestamp as int) % TWO_64 == 0 && IsBigEndian(Encoded(m)[1..], u)
  {
    var u := ToUnsigned(m.timestamp);
    assert Encoded(m)[1..] == Digits(u, 8);
    forall k: nat | k < 8 ensures HasDigit(Digits(u, 8), k, u) {
      DigitAt(u, 8, k);
    }
    assert (u - m.timestamp as int) % TWO_64 == 0;
    assert IsBigEndian(Encoded(m)[1..], u);
  }

  predicate HasDigit(b: seq<byte>, k: nat, u: int)
    requires k < |b|
  {
    Power256(|b| - 1 - k) > 0 && b[k] as int == u / Power256(|b| - 1 - k) % 256
  }

  predicate IsBigEndian(b: seq<byte>, u: int) {
    forall k: nat :: k < |b| ==> HasDigit(b, k, u)
  }

  /** Fills a fresh buffer in place: the type byte, then the timestamp from its low-order digit up. */
  method Encode(m: Message) returns (buf: array<byte>)
    ensures fresh(buf) && buf[..] == Encoded(m)
  {
    buf := new byte[MSG_SIZE];
    buf[0] := m.kind;
    var rest := ToUnsigned(m.timestamp);
    var i := 8;
    while i > 0
      invariant 0 <= i <= 8 && rest >= 0 && buf[0] == m.kind
      invariant Digits(rest, i) + buf[i + 1..] == Digits(ToUnsigned(m.timestamp), 8)
    {
      ghost var was, before := buf[i + 1..], rest;
      buf[i], rest := (rest % 256) as byte, rest / 256;
      assert buf[i..] == [(before % 256) as byte] + was;
      assert Digits(before, i) == Digits(rest, i - 1) + [(before % 256) as byte];
      assert Digits(before, i) + was == Digits(rest, i - 1) + buf[i..];
      i := i - 1;
    }
    assert buf[..] == [buf[0]] + buf[1..];
  }

  /** Reads the first nine bytes; a shorter buffer is an error. */
  function Decode(buf: seq<byte>): Option<Message> {
    if |buf| < MSG_SIZE then None
    else
      DigitsOfNumber(buf[1..9]);
      EightDigits();
      Some(Message(buf[0], ToSigned(Number(buf[1..9]))))
  }

  /** Every message, whatever its type byte and its signed timestamp, survives the wire. */
  lemma DecodeEncoded(m: Message)
    ensures Decode(Encoded(m)) == Some(m)
  {
    EightDigits();
    NumberOfDigits(ToUnsigned(m.timestamp), 8);
    assert Encoded(m)[1..9] == Digits(ToUnsigned(m.timestamp), 8);
  }

  /** Every 9-byte frame is the encoding of what it decodes to, and only shorter buffers fail. */
  lemma EncodeDecoded(b: seq<byte>)
    ensures Decode(b).None? <==> |b| < MSG_SIZE
    ensures |b| == MSG_SIZE ==> Encoded(Decode(b).value) == b
  {
    if |b| == MSG_SIZE {
      EightDigits();
      DigitsOfNumber(b[1..9]);
      var m := Decode(b).value;
      assert ToUnsigned(m.timestamp) == Number(b[1..9]);
      assert b == [b[0]] + b[1..9];
    }
  }

  function EncodedAll(ms: seq<Message>): seq<byte> {
    if ms == [] then [] else Encoded(ms[0]) + EncodedAll(ms[1..])
  }

  /** What a reader sees that takes nine bytes at a time until fewer are left (io.ReadFull). */
  method ReadFrames(stream: seq<byte>) returns (ms: seq<Message>, rest: seq<byte>)
    ensures stream == EncodedAll(ms) + rest && |rest| < MSG_SIZE
  {
    ms, rest := [], stream;
    assert EncodedAll([]) + rest == rest;
    while |rest| >= MSG_SIZE
      invariant stream == EncodedAll(ms) + rest
      decreases |rest|
    {
      var m := Decode(rest[..9]).value;
      EncodeDecoded(rest[..9]);
      EncodedAllLast(ms, m);
      assert rest == rest[..9] + rest[9..];
      assert EncodedAll(ms) + rest == (EncodedAll(ms) + rest[..9]) + rest[9..];
      ms, rest := ms + [m], rest[9..];
    }
  }

  lemma {:induction false} EncodedAllLast(ms: seq<Message>, m: Message)
    ensures EncodedAll(ms + [m]) == EncodedAll(ms) + Encoded(m)
  {
    var more := ms + [m];
    if ms == [] {
      assert more[0] == m && more[1..] == [];
    } else {
      EncodedAllLast(ms[1..], m);
      assert more[0] == ms[0] && more[1..] == ms[1..] + [m];
      Associates(Encoded(ms[0]), EncodedAll(ms[1..]), Encoded(m));
    }
  }

  lemma Associates(a: seq<byte>, b: seq<byte>, c: seq<byte>)
    ensures a + (b + c) == a + b + c
  {
  }

  lemma {:induction false} NineEach(ms: seq<Message>)
    ensures |EncodedAll(ms)| == MSG_SIZE * |ms|
  {
    if ms == [] {
    } else {
      NineEach(ms[1..]);
    }
  }

  /** Framing is unambiguous: messages encoded back to back are read back as sent, with nothing left. */
  lemma {:induction false} FramesAreRead(sent: seq<Message>, ms: seq<Message>, rest: seq<byte>)
    requires EncodedAll(sent) == EncodedAll(ms) + rest && |rest| < MSG_SIZE
    ensures ms == sent && rest == []
  {
    NineEach(sent);
    NineEach(ms);
    if sent == [] || ms == [] {
    } else {
      var a, b := EncodedAll(sent), EncodedAll(ms) + rest;
      assert a[..9] == Encoded(sent[0]) && b[..9] == Encoded(ms[0]);
      assert a[9..] == EncodedAll(sent[1..]) && b[9..] == EncodedAll(ms[1..]) + rest;
      DecodeEncoded(sent[0]);
      DecodeEncoded(ms[0]);
      FramesAreRead(sent[1..], ms[1..], rest);
    }
  }
}
