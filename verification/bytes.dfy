/**
 * The decompressed cache stream: a byte sequence read front to back through an
 * explicit position. Two read disciplines appear in the reader. The byte handler's
 * `read_int` needs all four bytes of a word; Python's `file.read(n)` used by the
 * accessors and by the skip path hands back whatever is left and never fails.
 */
module Bytes {
  import opened Results
  import opened Seqs

  newtype byte = x: int | 0 <= x < 256

  /** An unsigned 32-bit word, as `struct.unpack('I', ...)` yields it. */
  type Word = x: nat | x < 0x1_0000_0000

  const WordBytes: nat := 4

  /** The little-endian word stored at `pos`. */
  function WordAt(s: seq<byte>, pos: nat): (w: Word)
    requires pos + 4 <= |s|
  {
    var b0, b1, b2, b3 := s[pos] as nat, s[pos + 1] as nat, s[pos + 2] as nat, s[pos + 3] as nat;
    var hi := b2 + 256 * b3;
    assert hi < 65536;
    var mid := b1 + 256 * hi;
    assert mid < 0x100_0000;
    b0 + 256 * mid
  }

  /** The four bytes that store `w`, least significant first. */
  function EncodeWord(w: Word): (r: seq<byte>)
    ensures |r| == 4
    ensures WordAt(r, 0) == w
  {
    var w1 := w / 256;
    var w2 := w1 / 256;
    assert w == w1 * 256 + w % 256;
    assert w1 == w2 * 256 + w1 % 256;
    [(w % 256) as byte, (w1 % 256) as byte, (w2 % 256) as byte, (w2 / 256) as byte]
  }

  /** Encoding is the inverse of decoding: every four bytes are the encoding of the word they store. */
  lemma EncodeWordAt(s: seq<byte>, pos: nat)
    requires pos + 4 <= |s|
    ensures EncodeWord(WordAt(s, pos)) == s[pos..pos + 4]
  {
    var b0, b1, b2, b3 := s[pos] as nat, s[pos + 1] as nat, s[pos + 2] as nat, s[pos + 3] as nat;
    var w := WordAt(s, pos);
    var hi := b2 + 256 * b3;
    var mid := b1 + 256 * hi;
    assert w == b0 + 256 * mid;
    assert w % 256 == b0 && w / 256 == mid;
    assert mid % 256 == b1 && mid / 256 == hi;
    assert hi % 256 == b2 && hi / 256 == b3;
  }

  /** The word at `pos` depends only on the four bytes there. */
  lemma WordAtShift(s: seq<byte>, t: seq<byte>, pos: nat, tpos: nat)
    requires pos + 4 <= |s| && tpos + 4 <= |t|
    requires s[pos..pos + 4] == t[tpos..tpos + 4]
    ensures WordAt(s, pos) == WordAt(t, tpos)
  {
    assert s[pos] == s[pos..pos + 4][0] == t[tpos];
    assert s[pos + 1] == s[pos..pos + 4][1] == t[tpos + 1];
    assert s[pos + 2] == s[pos..pos + 4][2] == t[tpos + 2];
    assert s[pos + 3] == s[pos..pos + 4][3] == t[tpos + 3];
  }

  /** Decoding an encoded word in the middle of a stream gives the word back. */
  lemma WordAtEncoded(pre: seq<byte>, w: Word, post: seq<byte>)
    ensures |pre| + 4 <= |pre + EncodeWord(w) + post|
    ensures WordAt(pre + EncodeWord(w) + post, |pre|) == w
  {
    var s := pre + EncodeWord(w) + post;
    assert s[|pre|..|pre| + 4] == EncodeWord(w);
    WordAtShift(s, EncodeWord(w), |pre|, 0);
  }

  /** The `n` bytes of `s` from `pos` on. */
  function Segment(s: seq<byte>, pos: nat, n: nat): (r: seq<byte>)
    requires pos + n <= |s|
    ensures |r| == n
    ensures forall i :: 0 <= i < n ==> r[i] == s[pos + i]
  {
    seq(n, i requires 0 <= i < n => s[pos + i])
  }

  /**
   * `file.read(n)` on the stream: up to `n` bytes, fewer at the end of the stream,
   * and the position moves past exactly what was returned.
   */
  function Take(s: seq<byte>, pos: nat, n: nat): (r: (seq<byte>, nat))
    requires pos <= |s|
    ensures r.1 == pos + |r.0| <= |s|
    ensures r.0 == Segment(s, pos, r.1 - pos)
    ensures |r.0| == n <==> pos + n <= |s|
    ensures |r.0| < n ==> r.1 == |s|
  {
    var e := if pos + n <= |s| then pos + n else |s|;
    (Segment(s, pos, e - pos), e)
  }

  /** The bytes of a text made of 8-bit characters, one byte per character. */
  function Ascii(text: string): (r: seq<byte>)
    requires forall i :: 0 <= i < |text| ==> text[i] as int < 256
    ensures |r| == |text| && forall i :: 0 <= i < |text| ==> r[i] as int == text[i] as int
  {
    seq(|text|, i requires 0 <= i < |text| => text[i] as int as byte)
  }

  /** The handler's `read_int`: a whole 4-byte word or nothing. */
  function ReadInt(s: seq<byte>, pos: nat): (r: Option<(Word, nat)>)
    ensures r.Some? <==> pos + 4 <= |s|
    ensures r.Some? ==> r.value.0 == WordAt(s, pos) && r.value.1 == pos + 4
  {
    if pos + 4 <= |s| then Some((WordAt(s, pos), pos + 4)) else None
  }

  /** A word as a signed 32-bit integer, two's complement: how `read_int` hands it back. */
  function Signed(w: Word): (r: int)
    ensures -0x8000_0000 <= r < 0x8000_0000
    ensures (r - w) % 0x1_0000_0000 == 0
  {
    if w < 0x8000_0000 then w else w - 0x1_0000_0000
  }

  /** How many times `for i in range(n)` runs when `n` is the signed word `w`: never for a negative `n`. */
  function RangeCount(w: Word): (r: nat)
    ensures r == if Signed(w) < 0 then 0 else Signed(w)
  {
    if w < 0x8000_0000 then w else 0
  }

  /** `k` consecutive `read_int` calls; nothing if any of them is cut short. */
  function ReadInts(s: seq<byte>, pos: nat, k: nat): (r: Option<(seq<Word>, nat)>)
    requires pos <= |s|
    ensures r.Some? <==> pos + 4 * k <= |s|
    ensures r.Some? ==> r.value.0 == WordsAt(s, pos, k) && r.value.1 == pos + 4 * k
    decreases k
  {
    if k == 0 then Some(([], pos))
    else
      match ReadInt(s, pos)
      case None => None
      case Some((w, p)) =>
        match ReadInts(s, p, k - 1)
        case None => None
        case Some((ws, q)) => Some(([w] + ws, q))
  }

  /** `k` consecutive words starting at `pos`. */
  function WordsAt(s: seq<byte>, pos: nat, k: nat): (ws: seq<Word>)
    requires pos + 4 * k <= |s|
    ensures |ws| == k
    ensures forall i :: 0 <= i < k ==> ws[i] == WordAt(s, pos + 4 * i)
  {
    seq(k, i requires 0 <= i < k => WordAt(s, pos + 4 * i))
  }

  /** The bytes of a sequence of words, in order. */
  function EncodeWords(ws: seq<Word>): (r: seq<byte>)
    ensures |r| == 4 * |ws|
  {
    if ws == [] then [] else EncodeWord(ws[0]) + EncodeWords(ws[1..])
  }

  /** Reading `|ws|` words back from their encoding, wherever it sits in the stream, gives `ws`. */
  lemma {:induction false} WordsAtEncoded(pre: seq<byte>, ws: seq<Word>, post: seq<byte>)
    ensures |pre| + 4 * |ws| <= |pre + EncodeWords(ws) + post|
    ensures WordsAt(pre + EncodeWords(ws) + post, |pre|, |ws|) == ws
    decreases |ws|
  {
    var s := pre + EncodeWords(ws) + post;
    if ws != [] {
      var pre' := pre + EncodeWord(ws[0]);
      assert s == pre' + EncodeWords(ws[1..]) + post;
      WordsAtEncoded(pre', ws[1..], post);
      assert s == pre + EncodeWord(ws[0]) + (EncodeWords(ws[1..]) + post);
      WordAtEncoded(pre, ws[0], EncodeWords(ws[1..]) + post);
      var r := WordsAt(s, |pre|, |ws|);
      forall i | 0 <= i < |ws|
        ensures r[i] == ws[i]
      {
        if i > 0 {
          var r' := WordsAt(s, |pre'|, |ws| - 1);
          assert r'[i - 1] == WordAt(s, |pre'| + 4 * (i - 1));
          assert |pre'| + 4 * (i - 1) == |pre| + 4 * i;
        }
      }
    }
  }

  /**
   * The bytes `e` sit in `s` at `pos`. Stated byte by byte from the front, so that a
   * proof only looks inside it where it asks to.
   */
  predicate At(s: seq<byte>, pos: nat, e: seq<byte>)
    decreases |e|
  {
    if e == [] then pos <= |s| else pos < |s| && s[pos] == e[0] && At(s, pos + 1, e[1..])
  }

  /** `At` holds exactly when every byte of `e` is found at its offset from `pos`. */
  lemma {:induction false} AtIndex(s: seq<byte>, pos: nat, e: seq<byte>)
    ensures At(s, pos, e) <==> pos + |e| <= |s| && forall i :: 0 <= i < |e| ==> s[pos + i] == e[i]
    decreases |e|
  {
    if e != [] {
      AtIndex(s, pos + 1, e[1..]);
      if pos + |e| <= |s| && forall i :: 0 <= i < |e| ==> s[pos + i] == e[i] {
        forall i | 0 <= i < |e[1..]| ensures s[pos + 1 + i] == e[1..][i] {
          assert s[pos + (i + 1)] == e[i + 1];
        }
      }
      if At(s, pos, e) {
        forall i | 0 <= i < |e| ensures s[pos + i] == e[i] {
          if i > 0 {
            assert s[pos + 1 + (i - 1)] == e[1..][i - 1];
          }
        }
      }
    }
  }

  /** Whatever surrounds a piece, the piece sits right after what precedes it. */
  lemma AtConcat(pre: seq<byte>, e: seq<byte>, post: seq<byte>)
    ensures At(pre + e + post, |pre|, e)
  {
    var s := pre + e + post;
    forall i | 0 <= i < |e| ensures s[|pre| + i] == e[i] {
    }
    AtIndex(s, |pre|, e);
  }

  /** Two pieces in a row: the first at `pos`, the second right after it. */
  lemma AtSplit(s: seq<byte>, pos: nat, x: seq<byte>, y: seq<byte>)
    requires At(s, pos, x + y)
    ensures At(s, pos, x) && At(s, pos + |x|, y)
  {
    AtIndex(s, pos, x + y);
    forall i | 0 <= i < |x| ensures s[pos + i] == x[i] {
      assert (x + y)[i] == x[i];
    }
    forall i | 0 <= i < |y| ensures s[pos + |x| + i] == y[i] {
      assert s[pos + (|x| + i)] == (x + y)[|x| + i];
    }
    AtIndex(s, pos, x);
    AtIndex(s, pos + |x|, y);
  }

  /** A piece at `pos` cuts the stream into what precedes it, the piece, and what follows. */
  lemma AtParts(s: seq<byte>, pos: nat, e: seq<byte>) returns (pre: seq<byte>, post: seq<byte>)
    requires At(s, pos, e)
    ensures s == pre + e + post && |pre| == pos
  {
    AtIndex(s, pos, e);
    pre, post := s[..pos], s[pos + |e|..];
    assert s == pre + e + post by {
      forall i | 0 <= i < |s| ensures s[i] == (pre + e + post)[i] {
        if pos <= i < pos + |e| {
          assert s[pos + (i - pos)] == e[i - pos];
        }
      }
    }
  }

  /** Pieces written one after the other from `pos`: each sits at its offset. */
  lemma {:induction false} ConcatAt(s: seq<byte>, pos: nat, pieces: seq<seq<byte>>)
    requires At(s, pos, Concat(pieces))
    ensures forall i :: 0 <= i < |pieces| ==> At(s, Offsets(pieces, pos)[i], pieces[i])
    decreases |pieces|
  {
    if pieces != [] {
      AtSplit(s, pos, pieces[0], Concat(pieces[1..]));
      var ends, rest := Offsets(pieces, pos), Offsets(pieces[1..], pos + |pieces[0]|);
      ConcatAt(s, pos + |pieces[0]|, pieces[1..]);
      forall i | 1 <= i < |pieces| ensures At(s, ends[i], pieces[i]) {
        assert ends[i] == rest[i - 1] && pieces[i] == pieces[1..][i - 1];
      }
    }
  }

  /** A word stored at `pos` reads back as itself. */
  lemma WordAtAt(s: seq<byte>, pos: nat, w: Word)
    requires At(s, pos, EncodeWord(w))
    ensures pos + 4 <= |s| && WordAt(s, pos) == w
  {
    var pre, post := AtParts(s, pos, EncodeWord(w));
    WordAtEncoded(pre, w, post);
  }

  /** Words stored at `pos` read back as themselves. */
  lemma WordsAtAt(s: seq<byte>, pos: nat, ws: seq<Word>)
    requires At(s, pos, EncodeWords(ws))
    ensures pos + 4 * |ws| <= |s| && WordsAt(s, pos, |ws|) == ws
  {
    var pre, post := AtParts(s, pos, EncodeWords(ws));
    WordsAtEncoded(pre, ws, post);
  }
}
