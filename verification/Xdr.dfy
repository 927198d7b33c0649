/**
  External Data Representation (RFC 4506): how values are appended to an output buffer and taken
  from an input buffer, with bitmaps, file attributes and the fingerprint of a request.
 */
module Xdr {
  import opened NfsTypes

  // ---- Encodings ----

  /** The low `n` bytes of a number, most significant first. */
  function BigEndian(x: nat, n: nat): (b: Bytes)
    ensures |b| == n
    decreases n
  {
    if n == 0 then [] else BigEndian(x / 256, n - 1) + [x % 256]
  }

  function FromBigEndian(b: Bytes): (x: nat)
    ensures x < Pow256(|b|)
  {
    if b == [] then 0 else FromBigEndian(b[..|b| - 1]) * 256 + b[|b| - 1]
  }

  function Pow256(n: nat): nat {
    if n == 0 then 1 else 256 * Pow256(n - 1)
  }

  lemma {:induction false} BigEndianTrip(x: nat, n: nat)
    requires x < Pow256(n)
    ensures FromBigEndian(BigEndian(x, n)) == x
    decreases n
  {
    if n > 0 {
      BigEndianTrip(x / 256, n - 1);
      assert BigEndian(x, n)[..n - 1] == BigEndian(x / 256, n - 1);
    }
  }

  lemma Pow256Word()
    ensures Pow256(4) == WORD
  {
  }

  function U32(x: u32): (b: Bytes)
    ensures |b| == 4
  {
    BigEndian(x, 4)
  }

  /** Most significant byte first. */
  lemma U32Bytes(x: u32)
    ensures U32(x) == [x / 0x100_0000, x / 0x1_0000 % 0x100, x / 0x100 % 0x100, x % 0x100]
  {
    var a, b, c := x / 256, x / 256 / 256, x / 256 / 256 / 256;
    assert BigEndian(c, 1) == [c % 256];
    assert BigEndian(b, 2) == BigEndian(c, 1) + [b % 256];
    assert BigEndian(a, 3) == BigEndian(b, 2) + [a % 256];
  }

  function U64(x: u64): (b: Bytes)
    ensures |b| == 8
  {
    BigEndian(x, 8)
  }

  function Bool(x: bool): (b: Bytes)
    ensures |b| == 4
  {
    U32(if x then 1 else 0)
  }

  /** Bytes needed to reach a multiple of four. */
  function Pad(len: nat): (p: nat)
    ensures p < 4 && (len + p) % 4 == 0
  {
    (4 - len % 4) % 4
  }

  function Zeros(n: nat): (b: Bytes)
    ensures |b| == n
  {
    seq(n, _ => 0)
  }

  /** A length as a 32-bit word: the high bits are lost. */
  function Low32(n: nat): u32 {
    if n < WORD then n else n % WORD
  }

  /** The length word is the low 32 bits of the length. */
  function Opaque(data: Bytes): (b: Bytes)
    ensures |b| == 4 + |data| + Pad(|data|)
  {
    U32(Low32(|data|)) + data + Zeros(Pad(|data|))
  }

  /** An opaque is its length, its bytes and zeros up to a multiple of four. */
  lemma OpaqueShape(data: Bytes)
    requires |data| < WORD
    ensures var b := Opaque(data);
            && b[..4] == U32(|data|) && b[4..4 + |data|] == data && |b| % 4 == 0 && |b| < |data| + 8
            && forall i | 4 + |data| <= i < |b| :: b[i] == 0
  {
    var b := Opaque(data);
    assert b[..4] == U32(|data|) && b[4..4 + |data|] == data;
    assert |b| == 4 + (|data| + Pad(|data|));
  }

  /** The words up to the last that is not zero. */
  function Trimmed(words: seq<u32>): (t: seq<u32>)
    ensures t <= words && (t == words <==> words == [] || words[|words| - 1] != 0)
  {
    if words == [] || words[|words| - 1] != 0 then words else Trimmed(words[..|words| - 1])
  }

  function Words(words: seq<u32>): (b: Bytes)
    ensures |b| == 4 * |words|
  {
    if words == [] then [] else Words(words[..|words| - 1]) + U32(words[|words| - 1])
  }

  function Bitmap(words: seq<u32>): (b: Bytes)
    ensures |b| == 4 + 4 * |Trimmed(words)|
  {
    U32(Low32(|Trimmed(words)|)) + Words(Trimmed(words))
  }

  datatype Fattr = Fattr(mask: seq<u32>, vals: Bytes)

  function FattrXdr(a: Fattr): (b: Bytes)
    ensures |b| == 8 + 4 * |Trimmed(a.mask)| + |a.vals| + Pad(|a.vals|)
  {
    Bitmap(a.mask) + Opaque(a.vals)
  }

  // ---- Decodings: the value and what is left of the input; None when the input is too short ----

  function ReadU32(src: Bytes): Option<(u32, Bytes)> {
    Pow256Word();
    if |src| < 4 then None else Some((FromBigEndian(src[..4]), src[4..]))
  }

  function ReadOpaque(src: Bytes): Option<(Bytes, Bytes)> {
    var len := ReadU32(src);
    if len.None? then None
    else
      var (n, rest) := len.value;
      if |rest| < n + Pad(n) then None else Some((rest[..n], rest[n + Pad(n)..]))
  }

  function ReadWords(src: Bytes, count: nat): (r: Option<(seq<u32>, Bytes)>)
    ensures r.Some? ==> |r.value.0| == count
    ensures r.Some? <==> |src| >= 4 * count
    ensures r.Some? ==> |r.value.1| == |src| - 4 * count
    decreases count
  {
    if count == 0 then Some(([], src))
    else
      var w := ReadU32(src);
      if w.None? then None
      else
        var ws := ReadWords(w.value.1, count - 1);
        if ws.None? then None else Some(([w.value.0] + ws.value.0, ws.value.1))
  }

  function ReadBitmap(src: Bytes): Option<(seq<u32>, Bytes)> {
    var count := ReadU32(src);
    if count.None? || |count.value.1| < 4 * count.value.0 then None
    else ReadWords(count.value.1, count.value.0)
  }

  function ReadFattr(src: Bytes): Option<(Fattr, Bytes)> {
    var mask := ReadBitmap(src);
    if mask.None? then None
    else
      var vals := ReadOpaque(mask.value.1);
      if vals.None? then None else Some((Fattr(mask.value.0, vals.value.0), vals.value.1))
  }

  // ---- Round trips ----

  lemma U32Trip(x: u32, rest: Bytes)
    ensures ReadU32(U32(x) + rest) == Some((x, rest))
  {
    var s := U32(x) + rest;
    assert s[..4] == U32(x) && s[4..] == rest;
    Pow256Word();
    BigEndianTrip(x, 4);
  }

  /** An opaque comes back, with the rest of the input, exactly when its length fits 32 bits. */
  lemma OpaqueTrip(data: Bytes, rest: Bytes)
    ensures ReadOpaque(Opaque(data) + rest) == Some((data, rest)) <==> |data| < WORD
  {
    var n := Low32(|data|);
    var tail := data + Zeros(Pad(|data|)) + rest;
    Assoc(U32(n), data, Zeros(Pad(|data|)));
    Assoc(U32(n), data + Zeros(Pad(|data|)), rest);
    U32Trip(n, tail);
    if |data| < WORD {
      assert tail[..n] == data && tail[n + Pad(n)..] == rest;
    }
  }

  lemma {:induction false} WordsFront(words: seq<u32>)
    requires words != []
    ensures Words(words) == U32(words[0]) + Words(words[1..])
  {
    var last := |words| - 1;
    if last > 0 {
      WordsFront(words[..last]);
      assert words[..last][1..] == words[1..][..last - 1];
    }
  }

  lemma Assoc(a: Bytes, b: Bytes, c: Bytes)
    ensures (a + b) + c == a + (b + c)
  {
  }

  lemma ReadOneMore(src: Bytes, w: u32, tail: Bytes, words: seq<u32>, rest: Bytes)
    requires ReadU32(src) == Some((w, tail)) && ReadWords(tail, |words|) == Some((words, rest))
    ensures ReadWords(src, |words| + 1) == Some(([w] + words, rest))
  {
  }

  lemma {:induction false} WordsTrip(words: seq<u32>, b: Bytes, rest: Bytes)
    requires b == Words(words) + rest
    ensures ReadWords(b, |words|) == Some((words, rest))
    decreases |words|
  {
    if words == [] {
      assert b == rest;
    } else {
      var more := words[1..];
      var tail := Words(more) + rest;
      WordsTrip(more, tail, rest);
      FirstWord(words, b, tail, rest);
      ReadOneMore(b, words[0], tail, more, rest);
      assert words == [words[0]] + more;
    }
  }

  lemma FirstWord(words: seq<u32>, b: Bytes, tail: Bytes, rest: Bytes)
    requires words != [] && b == Words(words) + rest && tail == Words(words[1..]) + rest
    ensures ReadU32(b) == Some((words[0], tail))
  {
    WordsFront(words);
    Assoc(U32(words[0]), Words(words[1..]), rest);
    U32Trip(words[0], tail);
  }

  lemma ReadBitmapParts(src: Bytes, count: u32, tail: Bytes, words: seq<u32>, rest: Bytes)
    requires ReadU32(src) == Some((count, tail)) && ReadWords(tail, count) == Some((words, rest))
    ensures ReadBitmap(src) == Some((words, rest))
  {
  }

  lemma BitmapParts(words: seq<u32>, rest: Bytes)
    requires |words| < WORD
    ensures Bitmap(words) + rest == U32(|Trimmed(words)|) + (Words(Trimmed(words)) + rest)
  {
    Assoc(U32(|Trimmed(words)|), Words(Trimmed(words)), rest);
  }

  /** A bitmap comes back trimmed. */
  lemma BitmapTrip(words: seq<u32>, rest: Bytes)
    requires |words| < WORD
    ensures ReadBitmap(Bitmap(words) + rest) == Some((Trimmed(words), rest))
  {
    BitmapParts(words, rest);
    CountedTrip(Trimmed(words), rest);
  }

  lemma CountedTrip(words: seq<u32>, rest: Bytes)
    requires |words| < WORD
    ensures ReadBitmap(U32(|words|) + (Words(words) + rest)) == Some((words, rest))
  {
    var tail := Words(words) + rest;
    var src := U32(|words|) + tail;
    WordsTrip(words, tail, rest);
    U32Trip(|words|, tail);
    ReadBitmapParts(src, |words|, tail, words, rest);
  }

  lemma FattrTrip(a: Fattr, rest: Bytes)
    requires |a.mask| < WORD && |a.vals| < WORD
    ensures ReadFattr(FattrXdr(a) + rest) == Some((Fattr(Trimmed(a.mask), a.vals), rest))
  {
    assert FattrXdr(a) + rest == Bitmap(a.mask) + (Opaque(a.vals) + rest);
    BitmapTrip(a.mask, Opaque(a.vals) + rest);
    OpaqueTrip(a.vals, rest);
  }

  // ---- What the decoders accept ----

  lemma {:induction false} BigEndianBack(b: Bytes)
    ensures BigEndian(FromBigEndian(b), |b|) == b
    decreases |b|
  {
    if b != [] {
      BigEndianBack(b[..|b| - 1]);
      assert FromBigEndian(b) / 256 == FromBigEndian(b[..|b| - 1]) && FromBigEndian(b) % 256 == b[|b| - 1];
    }
  }

  /** A word is read exactly from four bytes that encode it. */
  lemma U32ReadIff(src: Bytes, x: u32, rest: Bytes)
    ensures ReadU32(src) == Some((x, rest)) <==> src == U32(x) + rest
    ensures ReadU32(src) == None <==> |src| < 4
  {
    U32Trip(x, rest);
    if ReadU32(src) == Some((x, rest)) {
      Pow256Word();
      BigEndianBack(src[..4]);
      assert src == src[..4] + src[4..];
    }
  }

  lemma OpaqueReads(src: Bytes, data: Bytes, padding: Bytes, rest: Bytes)
    requires |data| < WORD && |padding| == Pad(|data|) && src == U32(|data|) + (data + padding + rest)
    ensures ReadOpaque(src) == Some((data, rest))
  {
    var tail := data + padding + rest;
    U32ReadIff(src, |data|, tail);
    assert tail[..|data|] == data && tail[|data| + Pad(|data|)..] == rest;
  }

  lemma OpaqueWasThere(src: Bytes, data: Bytes, rest: Bytes) returns (padding: Bytes)
    requires ReadOpaque(src) == Some((data, rest))
    ensures |data| < WORD && |padding| == Pad(|data|) && src == U32(|data|) + (data + padding + rest)
  {
    var (n, tail) := ReadU32(src).value;
    U32ReadIff(src, n, tail);
    padding := tail[n..n + Pad(n)];
    assert tail == data + padding + rest;
  }

  /** An opaque is read exactly where its length, its bytes and as many bytes of padding stand. */
  lemma OpaqueReadIff(src: Bytes, data: Bytes, rest: Bytes)
    ensures ReadOpaque(src) == Some((data, rest))
       <==> |data| < WORD && exists padding: Bytes :: |padding| == Pad(|data|) && src == U32(|data|) + (data + padding + rest)
  {
    if ReadOpaque(src) == Some((data, rest)) {
      var padding := OpaqueWasThere(src, data, rest);
    } else if |data| < WORD {
      forall padding: Bytes | |padding| == Pad(|data|)
        ensures src != U32(|data|) + (data + padding + rest)
      {
        if src == U32(|data|) + (data + padding + rest) {
          OpaqueReads(src, data, padding, rest);
        }
      }
    }
  }

  lemma {:induction false} WordsReadIff(src: Bytes, words: seq<u32>, rest: Bytes)
    ensures ReadWords(src, |words|) == Some((words, rest)) <==> src == Words(words) + rest
    decreases |words|
  {
    if src == Words(words) + rest {
      WordsTrip(words, src, rest);
    }
    if ReadWords(src, |words|) == Some((words, rest)) && words != [] {
      var (w, tail) := ReadU32(src).value;
      U32ReadIff(src, w, tail);
      assert [w] + ReadWords(tail, |words| - 1).value.0 == words;
      assert w == words[0] && ReadWords(tail, |words| - 1).value.0 == words[1..];
      WordsReadIff(tail, words[1..], rest);
      WordsFront(words);
      Assoc(U32(w), Words(words[1..]), rest);
    }
  }

  /** A bitmap is read exactly where its count and that many words stand. */
  lemma BitmapReadIff(src: Bytes, words: seq<u32>, rest: Bytes)
    ensures ReadBitmap(src) == Some((words, rest)) <==> |words| < WORD && src == U32(|words|) + (Words(words) + rest)
  {
    if |words| < WORD && src == U32(|words|) + (Words(words) + rest) {
      CountedTrip(words, rest);
    }
    if ReadBitmap(src) == Some((words, rest)) {
      var (n, tail) := ReadU32(src).value;
      U32ReadIff(src, n, tail);
      WordsReadIff(tail, words, rest);
    }
  }

  // ---- Bits ----

  /** Bit `bit` of a number, counted from the least significant. */
  predicate TestBit(w: nat, bit: nat) {
    if bit == 0 then w % 2 == 1 else TestBit(w / 2, bit - 1)
  }

  /** The number with that bit turned on. */
  function OrBit(w: nat, bit: nat): (r: nat)
    ensures r > 0
  {
    if bit == 0 then w / 2 * 2 + 1 else OrBit(w / 2, bit - 1) * 2 + w % 2
  }

  function Pow2(n: nat): (p: nat)
    ensures p > 0
  {
    if n == 0 then 1 else 2 * Pow2(n - 1)
  }

  lemma {:induction false} OrBitTests(w: nat, bit: nat, j: nat)
    ensures TestBit(OrBit(w, bit), j) <==> j == bit || TestBit(w, j)
    decreases bit
  {
    if bit > 0 && j > 0 {
      OrBitTests(w / 2, bit - 1, j - 1);
      assert OrBit(w, bit) / 2 == OrBit(w / 2, bit - 1);
    }
  }

  lemma {:induction false} OrBitFits(w: nat, bit: nat, n: nat)
    requires w < Pow2(n) && bit < n
    ensures OrBit(w, bit) < Pow2(n)
    decreases bit
  {
    if bit > 0 {
      OrBitFits(w / 2, bit - 1, n - 1);
    }
  }

  lemma WordIsPow2()
    ensures Pow2(32) == WORD
  {
    assert Pow2(8) == 256;
    assert Pow2(16) == 65536 by { Pow2Adds(8, 8); }
    Pow2Adds(16, 16);
  }

  lemma {:induction false} Pow2Adds(a: nat, b: nat)
    ensures Pow2(a + b) == Pow2(a) * Pow2(b)
    decreases a
  {
    if a > 0 {
      Pow2Adds(a - 1, b);
    }
  }

  predicate IsSet(words: seq<u32>, bit: u32) {
    bit / 32 < |words| && TestBit(words[bit / 32], bit % 32)
  }

  /** An attribute bitmap, grown and changed in place. */
  class AttrBitmap {
    var words: seq<u32>

    constructor ()
      ensures words == []
    {
      words := [];
    }

    /** Exactly the requested bit is added, and the last word is never left zero. */
    method Set(bit: u32)
      modifies this
      ensures forall j: u32 :: IsSet(words, j) <==> j == bit || IsSet(old(words), j)
      ensures Trimmed(old(words)) == old(words) ==> Trimmed(words) == words
    {
      var word := bit / 32;
      while |words| <= word
        invariant old(words) <= words && |words| <= if |old(words)| > word then |old(words)| else word + 1
        invariant forall i | |old(words)| <= i < |words| :: words[i] == 0
        invariant |old(words)| > word ==> words == old(words)
        decreases word + 1 - |words|
      {
        words := words + [0];
      }
      ghost var grown := words;
      WordIsPow2();
      OrBitFits(words[word], bit % 32, 32);
      words := words[word := OrBit(words[word], bit % 32)];
      forall j: u32
        ensures IsSet(words, j) <==> j == bit || IsSet(old(words), j)
      {
        if j / 32 == word {
          OrBitTests(grown[word], bit % 32, j % 32);
          assert j == bit <==> j % 32 == bit % 32;
        }
        if |old(words)| <= j / 32 < |grown| {
          ZeroHasNoBits(j % 32);
        }
      }
    }
  }

  lemma {:induction false} ZeroHasNoBits(j: nat)
    ensures !TestBit(0, j)
  {
    if j > 0 {
      ZeroHasNoBits(j - 1);
    }
  }

  lemma {:induction false} TrimKeepsBits(words: seq<u32>, j: u32)
    ensures IsSet(Trimmed(words), j) <==> IsSet(words, j)
    decreases |words|
  {
    if words != [] && words[|words| - 1] == 0 {
      TrimKeepsBits(words[..|words| - 1], j);
      ZeroHasNoBits(j % 32);
    }
  }

  // ---- The fingerprint that tells a retry from another request ----

  function Fingerprint(flavor: u32, body: Bytes, payload: Bytes): Bytes {
    U32(flavor) + Opaque(body) + payload
  }

  /** Two requests have one fingerprint only if credential and payload are the same. */
  lemma FingerprintInjective(f1: u32, b1: Bytes, p1: Bytes, f2: u32, b2: Bytes, p2: Bytes)
    requires |b1| < WORD && |b2| < WORD && Fingerprint(f1, b1, p1) == Fingerprint(f2, b2, p2)
    ensures f1 == f2 && b1 == b2 && p1 == p2
  {
    FingerprintTrip(f1, b1, p1);
    FingerprintTrip(f2, b2, p2);
  }

  lemma FingerprintTrip(flavor: u32, body: Bytes, payload: Bytes)
    requires |body| < WORD
    ensures var src := Fingerprint(flavor, body, payload);
            var first := ReadU32(src);
            first.Some? && first.value.0 == flavor && ReadOpaque(first.value.1) == Some((body, payload))
  {
    assert Fingerprint(flavor, body, payload) == U32(flavor) + (Opaque(body) + payload);
    U32Trip(flavor, Opaque(body) + payload);
    OpaqueTrip(body, payload);
  }

  // ---- Output buffer ----

  class Writer {
    var out: Bytes

    constructor ()
      ensures out == []
    {
      out := [];
    }

    method PutU32(x: u32)
      modifies this
      ensures out == old(out) + U32(x)
    {
      out := out + U32(x);
    }

    method PutU64(x: u64)
      modifies this
      ensures out == old(out) + U64(x)
    {
      out := out + U64(x);
    }

    method PutBool(x: bool)
      modifies this
      ensures out == old(out) + Bool(x)
    {
      out := out + U32(if x then 1 else 0);
    }

    method PutOpaque(data: Bytes)
      modifies this
      ensures out == old(out) + Opaque(data)
    {
      PutU32(Low32(|data|));
      out := out + data;
      var pad := Pad(|data|);
      for i := 0 to pad
        invariant out == old(out) + U32(Low32(|data|)) + data + Zeros(i)
      {
        out := out + [0];
        assert Zeros(i) + [0] == Zeros(i + 1);
      }
    }

    /** Only the words up to the last that is not zero are written. */
    method PutBitmap(words: seq<u32>)
      modifies this
      ensures out == old(out) + Bitmap(words)
    {
      var n: int := |words|;
      assert words[..n] == words;
      while n > 0 && words[n - 1] == 0
        invariant 0 <= n <= |words| && Trimmed(words) == Trimmed(words[..n])
      {
        assert words[..n][..n - 1] == words[..n - 1];
        n := n - 1;
      }
      assert Trimmed(words) == words[..n];
      Assoc(out, U32(Low32(n)), Words(words[..n]));
      PutU32(Low32(n));
      PutWords(words[..n]);
    }

    method PutWords(words: seq<u32>)
      modifies this
      ensures out == old(out) + Words(words)
    {
      for i := 0 to |words|
        invariant out == old(out) + Words(words[..i])
      {
        assert words[..i + 1][..i] == words[..i];
        Assoc(old(out), Words(words[..i]), U32(words[i]));
        PutU32(words[i]);
      }
      assert words[..|words|] == words;
    }

    method PutFattr(a: Fattr)
      modifies this
      ensures out == old(out) + FattrXdr(a)
    {
      Assoc(out, Bitmap(a.mask), Opaque(a.vals));
      PutBitmap(a.mask);
      PutOpaque(a.vals);
    }

    /** The fingerprint of a request, appended piece by piece. */
    method PutFingerprint(flavor: u32, body: Bytes, payload: Bytes)
      modifies this
      ensures out == old(out) + Fingerprint(flavor, body, payload)
    {
      Assoc(out, U32(flavor), Opaque(body));
      Assoc(out, U32(flavor) + Opaque(body), payload);
      PutU32(flavor);
      PutOpaque(body);
      out := out + payload;
    }
  }

  // ---- Input buffer ----

  class Reader {
    var src: Bytes

    constructor (src: Bytes)
      ensures this.src == src
    {
      this.src := src;
    }

    method GetU32() returns (r: Option<u32>)
      modifies this
      ensures var spec := ReadU32(old(src));
              if spec.None? then r == None && src == old(src) else r == Some(spec.value.0) && src == spec.value.1
    {
      if |src| < 4 {
        return None;
      }
      Pow256Word();
      r := Some(FromBigEndian(src[..4]));
      src := src[4..];
    }

    method GetOpaque() returns (r: Option<Bytes>)
      modifies this
      ensures var spec := ReadOpaque(old(src));
              if spec.None? then r == None else r == Some(spec.value.0) && src == spec.value.1
    {
      var len := GetU32();
      if len.None? || |src| < len.value + Pad(len.value) {
        return None;
      }
      var n := len.value;
      r := Some(src[..n]);
      src := src[n..];
      if Pad(n) > 0 {
        src := src[Pad(n)..];
      }
    }

    method GetBitmap() returns (r: Option<seq<u32>>)
      modifies this
      ensures var spec := ReadBitmap(old(src));
              if spec.None? then r == None else r == Some(spec.value.0) && src == spec.value.1
    {
      var count := GetU32();
      if count.None? {
        return None;
      }
      var total: int := count.value;
      if |src| < 4 * total {
        return None;
      }
      var words := GetWords(total);
      r := Some(words);
    }

    method GetWords(total: nat) returns (words: seq<u32>)
      requires |src| >= 4 * total
      modifies this
      ensures ReadWords(old(src), total) == Some((words, src))
    {
      words := [];
      ghost var start := src;
      ghost var all := ReadWords(src, total).value;
      assert [] + all.0 == all.0;
      for i := 0 to total
        invariant |src| >= 4 * (total - i) && |words| == i
        invariant var later := ReadWords(src, total - i).value;
                  ReadWords(start, total) == Some((words + later.0, later.1))
      {
        ghost var left := src;
        var w := GetU32();
        words := words + [w.value];
        ghost var later := ReadWords(src, total - i - 1).value;
        ReadOneMore(left, w.value, src, later.0, later.1);
        assert words + later.0 == words[..i] + ([w.value] + later.0);
      }
      assert ReadWords(src, 0) == Some(([], src)) && words + [] == words;
    }
  }
}
