/**
 * Image and colour helpers of the menu screens: the run-length decoder that
 * unpacks the compressed icons into a pixel buffer, and the RGB565 colour
 * gradient used by the battery indicator.
 */
module MenuGfx {
  type Byte = x: int | 0 <= x < 256

  datatype Option<T> = None | Some(value: T)

  // ---------------------------------------------------------------------
  // Run-length decoding

  /** Bytes per pixel the decoder copies: 4 (RGBA) above 3, 3 (RGB) at 3 and
      2 (RGB16) below. */
  function PixelWidth(bpp: Byte): (w: int)
    ensures w == 2 || w == 3 || w == 4
    ensures 2 <= bpp <= 4 ==> w == bpp
  {
    if bpp > 3 then 4 else if bpp == 3 then 3 else 2
  }

  /** Pixels written by a repeat header (bit 7 set): the low seven bits,
      counted down in an 8-bit do-while, so that 0 means 256. */
  function RepeatCount(h: Byte): (n: int)
    requires h >= 128
    ensures 1 <= n <= 256 && (h > 128 ==> n == h - 128)
  {
    if h == 128 then 256 else h - 128
  }

  /** Bytes copied by a literal header (bit 7 clear): the header times the
      pixel width, computed in 8 bits. */
  function LiteralLength(h: Byte, w: int): (l: Byte)
    requires h < 128 && 2 <= w <= 4
    ensures l == (h * w) % 256
  {
    if h * w < 256 then h * w else h * w - 256
  }

  /** `n` copies of `pixel`, one after the other. */
  function Repeat(pixel: seq<Byte>, n: nat): seq<Byte>
    decreases n
  {
    if n == 0 then [] else Repeat(pixel, n - 1) + pixel
  }

  lemma {:induction false} RepeatCons(pixel: seq<Byte>, n: nat)
    requires 0 < n
    ensures Repeat(pixel, n) == pixel + Repeat(pixel, n - 1)
    decreases n
  {
    if n > 1 {
      RepeatCons(pixel, n - 1);
    }
  }

  /** The decoder from position `rd` of `rle` on, with `out` decoded so far
      and `limit` bytes to produce: the loop test of the decoder, which stops
      once `limit` bytes are there. */
  function Decode(rle: seq<Byte>, rd: nat, w: int, limit: int, out: seq<Byte>): Option<seq<Byte>>
    requires 2 <= w <= 4
    decreases limit - |out|, |rle| - rd, 1
  {
    if |out| >= limit then Some(out) else DecodeRun(rle, rd, w, limit, out)
  }

  /** One pass of the decoder loop: the header at `rd` and its run, then the
      rest; None when a header or its run lies past the end of the input. */
  function DecodeRun(rle: seq<Byte>, rd: nat, w: int, limit: int, out: seq<Byte>): Option<seq<Byte>>
    requires 2 <= w <= 4 && |out| < limit
    decreases limit - |out|, |rle| - rd, 0
  {
    if rd >= |rle| then None
    else if rle[rd] >= 128 then
      if |rle| < rd + 1 + w then None
      else Decode(rle, rd + 1 + w, w, limit, out + Repeat(rle[rd + 1..rd + 1 + w], RepeatCount(rle[rd])))
    else
      var l := LiteralLength(rle[rd], w);
      if |rle| < rd + 1 + l then None
      else Decode(rle, rd + 1 + l, w, limit, out + rle[rd + 1..rd + 1 + l])
  }

  /** The decoder only ever appends to what it has decoded, and stops once it
      has at least `limit` bytes. */
  lemma {:induction false} DecodeExtends(rle: seq<Byte>, rd: nat, w: int, limit: int, out: seq<Byte>)
    requires 2 <= w <= 4 && Decode(rle, rd, w, limit, out).Some?
    ensures out <= Decode(rle, rd, w, limit, out).value
    ensures limit <= |Decode(rle, rd, w, limit, out).value|
    decreases limit - |out|, |rle| - rd
  {
    if |out| < limit {
      if rle[rd] >= 128 {
        DecodeExtends(rle, rd + 1 + w, w, limit, out + Repeat(rle[rd + 1..rd + 1 + w], RepeatCount(rle[rd])));
      } else {
        var l := LiteralLength(rle[rd], w);
        DecodeExtends(rle, rd + 1 + l, w, limit, out + rle[rd + 1..rd + 1 + l]);
      }
    }
  }

  /** A repeat header at `rd` of a decode that succeeds: its pixel is there,
      its run fits in the result, and decoding goes on after the pixel. */
  lemma RepeatAt(rle: seq<Byte>, rd: nat, w: int, limit: int, done: seq<Byte>, out: seq<Byte>)
    requires 2 <= w <= 4 && rd < |rle| && rle[rd] >= 128 && |done| < limit
    requires Decode(rle, rd, w, limit, done) == Some(out)
    ensures rd + 1 + w <= |rle|
    ensures Decode(rle, rd + 1 + w, w, limit, done + Repeat(rle[rd + 1..rd + 1 + w], RepeatCount(rle[rd]))) == Some(out)
    ensures |done| + |Repeat(rle[rd + 1..rd + 1 + w], RepeatCount(rle[rd]))| <= |out|
  {
    DecodeExtends(rle, rd + 1 + w, w, limit, done + Repeat(rle[rd + 1..rd + 1 + w], RepeatCount(rle[rd])));
  }

  /** A literal header at `rd` of a decode that succeeds: its bytes are there,
      they fit in the result, and decoding goes on after them. */
  lemma LiteralAt(rle: seq<Byte>, rd: nat, w: int, limit: int, done: seq<Byte>, out: seq<Byte>)
    requires 2 <= w <= 4 && rd < |rle| && rle[rd] < 128 && |done| < limit
    requires Decode(rle, rd, w, limit, done) == Some(out)
    ensures rd + 1 + LiteralLength(rle[rd], w) <= |rle|
    ensures Decode(rle, rd + 1 + LiteralLength(rle[rd], w), w, limit, done + rle[rd + 1..rd + 1 + LiteralLength(rle[rd], w)]) == Some(out)
    ensures |done| + LiteralLength(rle[rd], w) <= |out|
  {
    var l := LiteralLength(rle[rd], w);
    DecodeExtends(rle, rd + 1 + l, w, limit, done + rle[rd + 1..rd + 1 + l]);
  }

  /** One step of the decoder over a repeat header whose pixel is there. */
  lemma RepeatUnfold(rle: seq<Byte>, rd: nat, w: int, limit: int, out: seq<Byte>)
    requires 2 <= w <= 4 && rd < |rle| && rle[rd] >= 128 && rd + 1 + w <= |rle| && |out| < limit
    ensures Decode(rle, rd, w, limit, out)
         == Decode(rle, rd + 1 + w, w, limit, out + Repeat(rle[rd + 1..rd + 1 + w], RepeatCount(rle[rd])))
  {
  }

  /** One step of the decoder over a literal header whose bytes are there. */
  lemma LiteralUnfold(rle: seq<Byte>, rd: nat, w: int, limit: int, out: seq<Byte>)
    requires 2 <= w <= 4 && rd < |rle| && rle[rd] < 128 && rd + 1 + LiteralLength(rle[rd], w) <= |rle| && |out| < limit
    ensures Decode(rle, rd, w, limit, out)
         == Decode(rle, rd + 1 + LiteralLength(rle[rd], w), w, limit, out + rle[rd + 1..rd + 1 + LiteralLength(rle[rd], w)])
  {
  }

  /** With three-byte pixels a literal header of 86 copies only 2 bytes: the
      8-bit product 258 wraps. */
  lemma LiteralRunWraps()
    ensures LiteralLength(86, 3) == 2
  {
  }

  /** A run of `count` copies of one pixel. */
  datatype Run = Run(pixel: seq<Byte>, count: nat)

  /** Runs the format can express in one header: pixels of `w` bytes, counts
      of 1 to 127, or 256 (the repeat header 0x80). */
  predicate Runs(runs: seq<Run>, w: int) {
    Counts(runs) && forall i :: 0 <= i < |runs| ==> |runs[i].pixel| == w
  }

  predicate Counts(runs: seq<Run>) {
    forall i :: 0 <= i < |runs| ==> 1 <= runs[i].count < 128 || runs[i].count == 256
  }

  /** The header a reference encoder writes for a run: a literal header of 1
      for a single pixel, otherwise a repeat header. */
  function Header(count: nat): (h: Byte)
    requires 1 <= count < 128 || count == 256
    ensures h < 128 <==> count == 1
    ensures h < 128 ==> h == 1
    ensures h >= 128 ==> RepeatCount(h) == count
  {
    if count == 1 then 1 else if count == 256 then 128 else 128 + count
  }

  /** A reference encoder for the runs from index `i` on: each run becomes
      its header followed by its pixel. */
  function Encode(runs: seq<Run>, i: nat): seq<Byte>
    requires i <= |runs| && Counts(runs)
    decreases |runs| - i
  {
    if i == |runs| then [] else [Header(runs[i].count)] + runs[i].pixel + Encode(runs, i + 1)
  }

  /** The bytes the runs from index `i` on stand for. */
  function Expand(runs: seq<Run>, i: nat): seq<Byte>
    requires i <= |runs|
    decreases |runs| - i
  {
    if i == |runs| then [] else Repeat(runs[i].pixel, runs[i].count) + Expand(runs, i + 1)
  }

  /** A header byte, a pixel and more input found at `rd` of `rle`. */
  lemma HeaderAt(rle: seq<Byte>, rd: nat, h: Byte, p: seq<Byte>, w: int, e: seq<Byte>)
    requires |p| == w && At(rle, rd, [h] + p + e)
    ensures rle[rd] == h && rle[rd + 1..rd + 1 + w] == p && At(rle, rd + 1 + w, e)
  {
    var s := [h] + p + e;
    assert rle[rd..rd + |s|][0] == s[0];
    forall j | 0 <= j < |p|
      ensures rle[rd + 1 + j] == p[j]
    {
      assert rle[rd..rd + |s|][1 + j] == s[1 + j];
    }
    forall j | 0 <= j < |e|
      ensures rle[rd + 1 + |p| + j] == e[j]
    {
      assert rle[rd..rd + |s|][1 + |p| + j] == s[1 + |p| + j];
    }
    assert rle[rd + 1..rd + 1 + |p|] == p;
    assert rle[rd + 1 + |p|..rd + 1 + |p| + |e|] == e;
  }

  /** `piece` sits at `rd` of `rle`. */
  predicate At(rle: seq<Byte>, rd: nat, piece: seq<Byte>) {
    rd + |piece| <= |rle| && rle[rd..rd + |piece|] == piece
  }

  /** One header of the reference encoding: the decoder writes its run and
      goes on right after its pixel. */
  lemma RunHeader(rle: seq<Byte>, rd: nat, p: seq<Byte>, count: nat, w: int, limit: int, out: seq<Byte>)
    requires 2 <= w <= 4 && |p| == w && (1 <= count < 128 || count == 256)
    requires rd + 1 + w <= |rle| && rle[rd] == Header(count) && rle[rd + 1..rd + 1 + w] == p
    requires |out| < limit
    ensures Decode(rle, rd, w, limit, out) == Decode(rle, rd + 1 + w, w, limit, out + Repeat(p, count))
  {
    if count == 1 {
      assert rle[rd] == 1 && LiteralLength(1, w) == w;
      LiteralUnfold(rle, rd, w, limit, out);
      assert Repeat(p, 1) == [] + p == p;
    } else {
      RepeatUnfold(rle, rd, w, limit, out);
    }
  }

  /** Decoding from `rd` with `out` decoded so far ends with `res`. */
  predicate DecodesTo(rle: seq<Byte>, rd: nat, w: int, limit: int, out: seq<Byte>, res: seq<Byte>)
    requires 2 <= w <= 4
  {
    Decode(rle, rd, w, limit, out) == Some(res)
  }

  /** Decoding from `rd` with `out` and from `rd'` with `out'` end alike. */
  predicate SameDecode(rle: seq<Byte>, rd: nat, rd': nat, w: int, limit: int, out: seq<Byte>, out': seq<Byte>)
    requires 2 <= w <= 4
  {
    Decode(rle, rd, w, limit, out) == Decode(rle, rd', w, limit, out')
  }

  /** `enc` and `exp` are the reference encoding of the runs from `i` on
      and the bytes those runs stand for. */
  predicate Encodes(runs: seq<Run>, i: nat, enc: seq<Byte>, exp: seq<Byte>) {
    i <= |runs| && Counts(runs) && enc == Encode(runs, i) && exp == Expand(runs, i)
  }

  /** Round trip: wherever the reference encoding `enc` of the runs from `i`
      on sits in the input, decoding from its start appends exactly the
      bytes `exp` those runs stand for to whatever was decoded before. */
  lemma {:induction false} DecodeEncode(rle: seq<Byte>, rd: nat, runs: seq<Run>, i: nat, enc: seq<Byte>, exp: seq<Byte>,
                                        w: int, limit: int, out: seq<Byte>)
    requires 2 <= w <= 4 && Runs(runs, w) && Encodes(runs, i, enc, exp)
    requires At(rle, rd, enc) && limit == |out| + |exp|
    ensures DecodesTo(rle, rd, w, limit, out, out + exp)
    decreases |runs| - i
  {
    if i < |runs| {
      var piece, enc', exp' := HeadOf(rle, rd, runs, i, enc, exp, w, limit, out);
      DecodeEncode(rle, rd + 1 + w, runs, i + 1, enc', exp', w, limit, out + piece);
      Chain(rle, rd, rd + 1 + w, w, limit, out, piece, exp', exp);
    } else {
      assert out + exp == out;
    }
  }

  /** The first run of an encoding: the decoder writes its bytes `piece`
      and goes on at the encoding `enc'` of the remaining runs. */
  lemma HeadOf(rle: seq<Byte>, rd: nat, runs: seq<Run>, i: nat, enc: seq<Byte>, exp: seq<Byte>,
               w: int, limit: int, out: seq<Byte>)
    returns (piece: seq<Byte>, enc': seq<Byte>, exp': seq<Byte>)
    requires 2 <= w <= 4 && Runs(runs, w) && Encodes(runs, i, enc, exp) && i < |runs|
    requires At(rle, rd, enc) && limit == |out| + |exp|
    ensures Encodes(runs, i + 1, enc', exp') && At(rle, rd + 1 + w, enc')
    ensures limit == |out + piece| + |exp'| && exp == piece + exp'
    ensures SameDecode(rle, rd, rd + 1 + w, w, limit, out, out + piece)
  {
    var r := runs[i];
    piece := Repeat(r.pixel, r.count);
    enc' := Encode(runs, i + 1);
    exp' := Expand(runs, i + 1);
    HeaderAt(rle, rd, Header(r.count), r.pixel, w, enc');
    RepeatCons(r.pixel, r.count);
    RunHeader(rle, rd, r.pixel, r.count, w, limit, out);
  }

  /** One decoder step followed by the decode of the rest. (Comparing with
      `true` keeps callers from unfolding the decoder to check these.) */
  lemma Chain(rle: seq<Byte>, rd: nat, rd': nat, w: int, limit: int, out: seq<Byte>, piece: seq<Byte>, tail: seq<Byte>, whole: seq<Byte>)
    requires 2 <= w <= 4 && whole == piece + tail
    requires SameDecode(rle, rd, rd', w, limit, out, out + piece) == true
    requires DecodesTo(rle, rd', w, limit, out + piece, (out + piece) + tail) == true
    ensures DecodesTo(rle, rd, w, limit, out, out + whole)
  {
    assert (out + piece) + tail == out + whole;
  }

  /** A whole image given as runs decodes from its reference encoding. */
  lemma DecodeEncodeImage(runs: seq<Run>, w: int)
    requires 2 <= w <= 4 && Runs(runs, w)
    ensures Decode(Encode(runs, 0), 0, w, |Expand(runs, 0)|, []) == Some(Expand(runs, 0))
  {
    var rle := Encode(runs, 0);
    assert rle[0..|rle|] == rle;
    assert Encodes(runs, 0, rle, Expand(runs, 0));
    DecodeEncode(rle, 0, runs, 0, rle, Expand(runs, 0), w, |Expand(runs, 0)|, []);
    assert [] + Expand(runs, 0) == Expand(runs, 0);
  }

  /** `s` with `piece` written over it from `at` on. */
  function Splice(s: seq<Byte>, at: int, piece: seq<Byte>): (r: seq<Byte>)
    requires 0 <= at && at + |piece| <= |s|
    ensures |r| == |s|
  {
    seq(|s|, i requires 0 <= i < |s| => if at <= i < at + |piece| then piece[i - at] else s[i])
  }

  /** Writing a piece right after a written prefix extends that prefix. */
  lemma SpliceAfter(base: seq<Byte>, at: int, done: seq<Byte>, piece: seq<Byte>)
    requires 0 <= at && at + |done| + |piece| <= |base|
    ensures Splice(Splice(base, at, done), at + |done|, piece) == Splice(base, at, done + piece)
  {
  }

  /** After a splice the prefix up to the end of the piece is the old prefix
      and the piece, and everything past it is as before. */
  lemma SplicePrefix(s: seq<Byte>, at: int, piece: seq<Byte>, m: int)
    requires 0 <= at && at + |piece| <= m <= |s|
    ensures Splice(s, at, piece)[..at + |piece|] == s[..at] + piece
    ensures Splice(s, at, piece)[m..] == s[m..]
  {
  }

  /** Copies `count` bytes of `src` from `from` into `image` at `at`. */
  method CopyBytes(image: array<Byte>, at: int, src: seq<Byte>, from: int, count: int)
    requires 0 <= at && at + count <= image.Length
    requires 0 <= from && 0 <= count && from + count <= |src|
    modifies image
    ensures image[..] == Splice(old(image[..]), at, src[from..from + count])
  {
    var i := 0;
    while i < count
      invariant 0 <= i <= count
      invariant image[..] == Splice(old(image[..]), at, src[from..from + i])
    {
      image[at + i] := src[from + i];
      i := i + 1;
    }
  }

  /** Copies `count` bytes of `src` right after the `done` bytes already
      written over `base` from `at` on. */
  method AppendBytes(image: array<Byte>, ghost base: seq<Byte>, ghost at: int, ghost done: seq<Byte>,
                     to: int, src: seq<Byte>, from: int, count: int) returns (end: int)
    requires 0 <= at && to == at + |done| && to + count <= |base| == image.Length
    requires 0 <= from && 0 <= count && from + count <= |src|
    requires image[..] == Splice(base, at, done)
    modifies image
    ensures end == to + count
    ensures image[..] == Splice(base, at, done + src[from..from + count])
  {
    SpliceAfter(base, at, done, src[from..from + count]);
    CopyBytes(image, to, src, from, count);
    end := to + count;
  }

  /** Fewer copies of a pixel leave room for one more. */
  lemma {:induction false} RepeatFits(pixel: seq<Byte>, k: nat, n: nat)
    requires k < n
    ensures |Repeat(pixel, k)| + |pixel| <= |Repeat(pixel, n)|
    decreases n
  {
    if k < n - 1 {
      RepeatFits(pixel, k, n - 1);
    }
  }

  /** A repeat run with header `h`: copies the pixel at `from` to `at` and on,
      counting the low seven bits of `h` down in 8 bits after each copy, so
      that 0 means 256. */
  method RepeatPixel(image: array<Byte>, at: int, rle: seq<Byte>, from: int, w: int, h: Byte) returns (end: int)
    requires 2 <= w <= 4 && 128 <= h && 0 <= at && 0 <= from && from + w <= |rle|
    requires at + |Repeat(rle[from..from + w], RepeatCount(h))| <= image.Length
    modifies image
    ensures end == at + |Repeat(rle[from..from + w], RepeatCount(h))|
    ensures image[..] == Splice(old(image[..]), at, Repeat(rle[from..from + w], RepeatCount(h)))
  {
    ghost var n := RepeatCount(h);
    var l := h - 128;
    ghost var pixel := rle[from..from + w];
    ghost var base := old(image[..]);
    RepeatFits(pixel, 0, n);
    assert Repeat(pixel, 0) == [];
    end := AppendBytes(image, base, at, [], at, rle, from, w);
    l := if l == 0 then 255 else l - 1;
    ghost var k := 1;
    while l != 0
      invariant 0 <= l < n && k == n - l && end == at + |Repeat(pixel, k)| <= image.Length
      invariant image[..] == Splice(base, at, Repeat(pixel, k))
      decreases l
    {
      RepeatFits(pixel, k, n);
      end := AppendBytes(image, base, at, Repeat(pixel, k), end, rle, from, w);
      l := l - 1;
      k := k + 1;
    }
  }

  /** The decoder: unpacks `rle` into `image` until `size * bpp` bytes are
      written. The input must be well formed and the buffer large enough for
      the last run. */
  method RunLengthDecode(image: array<Byte>, rle: seq<Byte>, size: int, bpp: Byte)
    requires 0 <= size
    requires Decode(rle, 0, PixelWidth(bpp), size * bpp, []).Some?
    requires |Decode(rle, 0, PixelWidth(bpp), size * bpp, []).value| <= image.Length
    modifies image
    ensures var out := Decode(rle, 0, PixelWidth(bpp), size * bpp, []).value;
      image[..|out|] == out && image[|out|..] == old(image[|out|..])
  {
    var w := PixelWidth(bpp);
    var limit := size * bpp;
    ghost var out := Decode(rle, 0, w, limit, []).value;
    ghost var base := image[..];
    ghost var done: seq<Byte> := [];
    var ip := 0;
    var rd := 0;
    DecodeExtends(rle, 0, w, limit, []);
    assert Splice(base, 0, []) == base;
    while ip < limit
      invariant 0 <= rd <= |rle| && ip == |done| <= |out|
      invariant Decode(rle, rd, w, limit, done) == Some(out)
      invariant image[..] == Splice(base, 0, done)
      decreases limit - ip, |rle| - rd
    {
      if rle[rd] >= 128 {
        ip, rd, done := RepeatStep(image, rle, ip, rd, w, limit, out, base, done);
      } else {
        ip, rd, done := LiteralStep(image, rle, ip, rd, w, limit, out, base, done);
      }
    }
    DecodeExtends(rle, rd, w, limit, done);
    assert done == out;
    SplicePrefix(base, 0, out, |out|);
  }

  /** A repeat header at `rd`: writes its run after the `done` bytes decoded so far. */
  method RepeatStep(image: array<Byte>, rle: seq<Byte>, ip: int, rd: nat, w: int,
                    ghost limit: int, ghost out: seq<Byte>, ghost base: seq<Byte>, ghost done: seq<Byte>)
    returns (ip': int, rd': nat, ghost done': seq<Byte>)
    requires 2 <= w <= 4 && rd < |rle| && rle[rd] >= 128
    requires ip == |done| < limit && |done| <= |out| <= |base| == image.Length
    requires Decode(rle, rd, w, limit, done) == Some(out)
    requires image[..] == Splice(base, 0, done)
    modifies image
    ensures rd < rd' <= |rle| && ip <= ip' == |done'| <= |out|
    ensures Decode(rle, rd', w, limit, done') == Some(out)
    ensures image[..] == Splice(base, 0, done')
  {
    RepeatAt(rle, rd, w, limit, done, out);
    ghost var piece := Repeat(rle[rd + 1..rd + 1 + w], RepeatCount(rle[rd]));
    SpliceAfter(base, 0, done, piece);
    ip' := RepeatPixel(image, ip, rle, rd + 1, w, rle[rd]);
    rd' := rd + 1 + w;
    done' := done + piece;
  }

  /** A literal header at `rd`: copies its bytes after the `done` bytes decoded so far. */
  method LiteralStep(image: array<Byte>, rle: seq<Byte>, ip: int, rd: nat, w: int,
                     ghost limit: int, ghost out: seq<Byte>, ghost base: seq<Byte>, ghost done: seq<Byte>)
    returns (ip': int, rd': nat, ghost done': seq<Byte>)
    requires 2 <= w <= 4 && rd < |rle| && rle[rd] < 128
    requires ip == |done| < limit && |done| <= |out| <= |base| == image.Length
    requires Decode(rle, rd, w, limit, done) == Some(out)
    requires image[..] == Splice(base, 0, done)
    modifies image
    ensures rd < rd' <= |rle| && ip <= ip' == |done'| <= |out|
    ensures Decode(rle, rd', w, limit, done') == Some(out)
    ensures image[..] == Splice(base, 0, done')
  {
    LiteralAt(rle, rd, w, limit, done, out);
    var l := LiteralLength(rle[rd], w);
    ip' := AppendBytes(image, base, 0, done, ip, rle, rd + 1, l);
    rd' := rd + 1 + l;
    done' := done + rle[rd + 1..rd + 1 + l];
  }

  // ---------------------------------------------------------------------
  // Colour gradient

  /** The 5-bit red, 6-bit green and 5-bit blue channels of an RGB565 colour. */
  function Red(c: int): int { c / 2048 }
  function Green(c: int): int { c / 32 % 64 }
  function Blue(c: int): int { c % 32 }

  /** Masks the channels to 5/6/5 bits and packs them into one colour. */
  function Pack(r: int, g: int, b: int): (c: int)
    ensures 0 <= c < 65536
  {
    (r % 32) * 2048 + (g % 64) * 32 + b % 32
  }

  /** Division truncating toward zero, as C divides integers. */
  function TruncDiv(x: int, d: int): int
    requires 0 < d
  {
    if x >= 0 then x / d else -((-x) / d)
  }

  /** A channel `percent` of the way from `a` to `b`. */
  function Mix(a: int, b: int, percent: int): int {
    a + TruncDiv(percent * (b - a), 100)
  }

  /** getColorGradient: each channel of the result is the mixed channel, masked to its width. */
  function ColorGradient(color1: int, color2: int, percent: int): (c: int)
    ensures 0 <= c < 65536
    ensures Red(c) == Mix(Red(color1), Red(color2), percent) % 32
    ensures Green(c) == Mix(Green(color1), Green(color2), percent) % 64
    ensures Blue(c) == Mix(Blue(color1), Blue(color2), percent) % 32
  {
    var r := Mix(Red(color1), Red(color2), percent);
    var g := Mix(Green(color1), Green(color2), percent);
    var b := Mix(Blue(color1), Blue(color2), percent);
    ChannelsOfMasked(r, g, b);
    Pack(r, g, b)
  }

  /** Packing masks each channel to its width first. */
  lemma ChannelsOfMasked(r: int, g: int, b: int)
    ensures Red(Pack(r, g, b)) == r % 32 && Green(Pack(r, g, b)) == g % 64 && Blue(Pack(r, g, b)) == b % 32
  {
    assert Pack(r, g, b) == Pack(r % 32, g % 64, b % 32);
    ChannelsOfPack(r % 32, g % 64, b % 32);
  }

  /** Splitting a colour into channels and packing them again gives it back. */
  lemma PackChannels(c: int)
    requires 0 <= c < 65536
    ensures Pack(Red(c), Green(c), Blue(c)) == c
    ensures 0 <= Red(c) < 32 && 0 <= Green(c) < 64 && 0 <= Blue(c) < 32
  {
    var q := c / 32;
    assert c == q * 32 + c % 32;
    assert q == (q / 64) * 64 + q % 64;
    assert q / 64 == c / 2048;
  }

  /** Channels in range survive packing unchanged. */
  lemma ChannelsOfPack(r: int, g: int, b: int)
    requires 0 <= r < 32 && 0 <= g < 64 && 0 <= b < 32
    ensures Red(Pack(r, g, b)) == r && Green(Pack(r, g, b)) == g && Blue(Pack(r, g, b)) == b
  {
    var q := r * 64 + g;
    var c := Pack(r, g, b);
    assert c == q * 32 + b;
    assert c / 32 == q && c % 32 == b;
    assert q / 64 == r && q % 64 == g;
    assert c / 2048 == (c / 32) / 64;
  }

  /** For 0 to 100 percent the mixed channel lies between the two end channels,
      and equals them at 0 and at 100 percent. */
  lemma MixBetween(a: int, b: int, percent: int)
    requires 0 <= percent <= 100
    ensures a <= b ==> a <= Mix(a, b, percent) <= b
    ensures b < a ==> b <= Mix(a, b, percent) <= a
    ensures percent == 0 ==> Mix(a, b, percent) == a
    ensures percent == 100 ==> Mix(a, b, percent) == b
  {
    if a <= b {
      ScaleBounds(percent, b - a);
    } else {
      ScaleBounds(percent, a - b);
      assert percent * (b - a) == -(percent * (a - b));
    }
  }

  /** `percent * d / 100` lies between 0 and `d`, and is 0 or `d` at the ends. */
  lemma ScaleBounds(percent: int, d: int)
    requires 0 <= percent <= 100 && 0 <= d
    ensures 0 <= percent * d <= 100 * d
    ensures 0 <= percent * d / 100 <= d
    ensures percent == 0 ==> percent * d / 100 == 0
    ensures percent == 100 ==> percent * d / 100 == d
  {
    MulBounds(percent, d);
    DivBounds(percent * d, d);
  }

  lemma MulBounds(percent: int, d: int)
    requires 0 <= percent <= 100 && 0 <= d
    ensures 0 <= percent * d <= 100 * d
  {
    assert (100 - percent) * d >= 0;
  }

  lemma DivBounds(x: int, d: int)
    requires 0 <= x <= 100 * d
    ensures 0 <= x / 100 <= d
  {
  }

  /** The gradient starts at the first colour, ends at the second, and in
      between every channel lies between the channels of the two colours. */
  lemma Gradient(color1: int, color2: int, percent: int)
    requires 0 <= color1 < 65536 && 0 <= color2 < 65536 && 0 <= percent <= 100
    ensures percent == 0 ==> ColorGradient(color1, color2, percent) == color1
    ensures percent == 100 ==> ColorGradient(color1, color2, percent) == color2
    ensures var c := ColorGradient(color1, color2, percent);
      Between(Red(c), Red(color1), Red(color2)) &&
      Between(Green(c), Green(color1), Green(color2)) &&
      Between(Blue(c), Blue(color1), Blue(color2))
  {
    PackChannels(color1);
    PackChannels(color2);
    var r := Mix(Red(color1), Red(color2), percent);
    var g := Mix(Green(color1), Green(color2), percent);
    var b := Mix(Blue(color1), Blue(color2), percent);
    MixBetween(Red(color1), Red(color2), percent);
    MixBetween(Green(color1), Green(color2), percent);
    MixBetween(Blue(color1), Blue(color2), percent);
    ChannelsOfPack(r, g, b);
  }

  predicate Between(x: int, a: int, b: int) {
    (a <= x <= b) || (b <= x <= a)
  }
}
