/** Fixed-width data shared by the stream cores: 8-bit samples packed eight
    to a 64-bit stream word, byte 0 in the least-significant position. */
module Words {

  type Byte = bv8
  type Word = bv64

  datatype Option<T> = None | Some(value: T)

  /** The eight bytes of a word, least significant first: byte i is bits
      [8i, 8i+8). */
  function WordBytes(w: Word): (bs: seq<Byte>)
    ensures |bs| == 8
  {
    [(w & 0xff) as Byte, ((w >> 8) & 0xff) as Byte,
     ((w >> 16) & 0xff) as Byte, ((w >> 24) & 0xff) as Byte,
     ((w >> 32) & 0xff) as Byte, ((w >> 40) & 0xff) as Byte,
     ((w >> 48) & 0xff) as Byte, ((w >> 56) & 0xff) as Byte]
  }

  /** Byte i of a word. */
  function ByteOf(w: Word, i: nat): Byte
    requires i < 8
  {
    WordBytes(w)[i]
  }

  /** Eight bytes assembled into one word, the first byte in bits [0, 8). */
  function PackWord(bs: seq<Byte>): Word
    requires |bs| == 8
  {
    (bs[0] as Word)
    | ((bs[1] as Word) << 8)
    | ((bs[2] as Word) << 16)
    | ((bs[3] as Word) << 24)
    | ((bs[4] as Word) << 32)
    | ((bs[5] as Word) << 40)
    | ((bs[6] as Word) << 48)
    | ((bs[7] as Word) << 56)
  }

  /** Packing the bytes of a word gives the word back. */
  lemma PackWordBytes(w: Word)
    ensures PackWord(WordBytes(w)) == w
  {
  }

  /** Every byte put into a word can be read back from its position. */
  lemma WordBytesPack(bs: seq<Byte>)
    requires |bs| == 8
    ensures WordBytes(PackWord(bs)) == bs
  {
  }

  /** A word is determined by its bytes. */
  lemma WordFromBytes(w: Word, bs: seq<Byte>)
    requires WordBytes(w) == bs
    ensures w == PackWord(bs)
  {
    PackWordBytes(w);
  }

  /** The full 8-byte groups of a byte stream as words; a trailing partial
      group is not emitted. */
  function PackAll(bs: seq<Byte>): (ws: seq<Word>)
    ensures |ws| == |bs| / 8
  {
    seq(|bs| / 8, k requires 0 <= k < |bs| / 8 => PackWord(bs[8 * k .. 8 * k + 8]))
  }

  /** Byte t of a packed stream is byte t of the bytes it was packed from. */
  lemma PackAllByte(bs: seq<Byte>, t: nat)
    requires t < 8 * (|bs| / 8)
    ensures t / 8 < |PackAll(bs)| && ByteOf(PackAll(bs)[t / 8], t % 8) == bs[t]
  {
    var j, k := t / 8, t % 8;
    assert 8 * j + 8 <= |bs| && 8 * j + k == t;
    var g := bs[8 * j .. 8 * j + 8];
    assert PackAll(bs)[j] == PackWord(g);
    PackWordByte(g, k);
    assert g[k] == bs[t];
  }

  /** Byte b of packed word q is byte 8 * q + b of the bytes it was packed
      from. */
  lemma PackAllWordByte(bs: seq<Byte>, q: nat, b: nat)
    requires q < |bs| / 8 && b < 8
    ensures 8 * q + b < |bs| && ByteOf(PackAll(bs)[q], b) == bs[8 * q + b]
  {
    assert 8 * q + 8 <= |bs|;
    var g := bs[8 * q .. 8 * q + 8];
    assert PackAll(bs)[q] == PackWord(g);
    PackWordByte(g, b);
  }

  /** Byte k of an assembled word is the k-th byte it was assembled from. */
  lemma PackWordByte(g: seq<Byte>, k: nat)
    requires |g| == 8 && k < 8
    ensures ByteOf(PackWord(g), k) == g[k]
  {
    WordBytesPack(g);
  }

  /** Concatenation of the byte contents of a word stream. */
  function StreamBytes(ws: seq<Word>): (bs: seq<Byte>)
    ensures |bs| == 8 * |ws|
  {
    if ws == [] then [] else StreamBytes(ws[..|ws| - 1]) + WordBytes(ws[|ws| - 1])
  }

  lemma {:induction false} StreamBytesAt(ws: seq<Word>, k: nat)
    requires k < |ws|
    ensures StreamBytes(ws)[8 * k .. 8 * k + 8] == WordBytes(ws[k])
  {
    var n := |ws| - 1;
    var front, last := StreamBytes(ws[..n]), WordBytes(ws[n]);
    assert StreamBytes(ws) == front + last;
    if k < n {
      StreamBytesAt(ws[..n], k);
      SliceLeft(front, last, 8 * k, 8 * k + 8);
      var v := ws[..n][k];
      assert v == ws[k];
      assert front[8 * k .. 8 * k + 8] == WordBytes(v);
    } else {
      SliceRight(front, last);
    }
  }

  lemma SliceLeft<T>(a: seq<T>, b: seq<T>, i: nat, j: nat)
    requires i <= j <= |a|
    ensures (a + b)[i..j] == a[i..j]
  {
  }

  lemma SliceRight<T>(a: seq<T>, b: seq<T>)
    ensures (a + b)[|a|..|a| + |b|] == b
  {
  }

  /** Unpacking a word stream and repacking it is the identity. */
  lemma PackAllStreamBytes(ws: seq<Word>)
    ensures PackAll(StreamBytes(ws)) == ws
  {
    var p := PackAll(StreamBytes(ws));
    forall k | 0 <= k < |ws| ensures p[k] == ws[k] {
      StreamBytesAt(ws, k);
      PackWordBytes(ws[k]);
    }
  }

  /** Appending a chunk that does not cross a group boundary emits a word
      exactly when it completes the current group. */
  lemma PackAllAppend(bs: seq<Byte>, c: seq<Byte>)
    requires |bs| % 8 + |c| <= 8
    ensures |bs| % 8 + |c| < 8 ==> PackAll(bs + c) == PackAll(bs)
    ensures |bs| % 8 + |c| == 8 ==>
              PackAll(bs + c) == PackAll(bs) + [PackWord(bs[8 * (|bs| / 8)..] + c)]
  {
    var m, r := |bs| / 8, |bs| % 8;
    assert |bs| == 8 * m + r;
    var s := bs + c;
    var ps, pb := PackAll(s), PackAll(bs);
    if r + |c| < 8 {
      assert |s| / 8 == m;
    } else {
      assert |s| / 8 == m + 1;
      assert s[8 * m .. 8 * m + 8] == bs[8 * m..] + c;
    }
    forall k | 0 <= k < m ensures ps[k] == pb[k] {
      assert s[8 * k .. 8 * k + 8] == bs[8 * k .. 8 * k + 8];
    }
  }

  /** The incomplete last group of a byte stream after a chunk that does not
      cross a group boundary. */
  lemma TailAppend(s: seq<Byte>, c: seq<Byte>)
    requires |s| % 8 + |c| <= 8
    ensures |s| % 8 + |c| == 8 ==> (s + c)[8 * (|s + c| / 8)..] == []
    ensures |s| % 8 + |c| < 8 ==> (s + c)[8 * (|s + c| / 8)..] == s[8 * (|s| / 8)..] + c
  {
    var m := |s| / 8;
    assert |s| == 8 * m + |s| % 8;
    if |s| % 8 + |c| == 8 {
      assert |s + c| / 8 == m + 1;
    } else {
      assert |s + c| / 8 == m;
    }
  }

  /** A stream built from chunks of b bytes, b dividing 8, always leaves room
      for one more chunk in its incomplete last group. */
  lemma GroupFits(n: nat, b: nat, k: nat)
    requires b == 1 || b == 2 || b == 4 || b == 8
    requires n == k * b
    ensures n % 8 + b <= 8
    ensures b == 8 ==> n % 8 == 0
  {
    var q := k / 8;
    var m := k % 8;
    assert k == 8 * q + m;
    if b == 1 {
      assert n == 8 * q + m;
    } else if b == 2 {
      assert n == 8 * (2 * q + m / 4) + 2 * (m % 4);
    } else if b == 4 {
      assert n == 8 * (4 * q + m / 2) + 4 * (m % 2);
    } else {
      assert n == 8 * (8 * q + m);
    }
  }

  /** Counter phase: the number of steps taken modulo the period p, as a
      wrapping counter 0, 1, .., p-1, 0, .. sees it. */
  function Phase(p: nat, n: nat): (c: nat)
    requires p >= 1
    ensures c < p
  {
    if n < p then n else Phase(p, n - p)
  }

  /** One more step moves the counter on, wrapping after p - 1. */
  lemma {:induction false} PhaseStep(p: nat, n: nat)
    requires p >= 1
    ensures Phase(p, n + 1) == if Phase(p, n) == p - 1 then 0 else Phase(p, n) + 1
  {
    if n + 1 >= p && n >= p {
      PhaseStep(p, n - p);
    }
  }

  /** Multiplying by the same factor keeps the order. */
  lemma MulMono(a: nat, b: nat, c: nat)
    requires a <= b
    ensures a * c <= b * c
  {
  }

  /** The product one step up. */
  lemma MulStep(j: nat, r: nat)
    requires j > 0
    ensures (j - 1) * r + r == j * r
  {
  }

  /** Extending a prefix by one element. */
  lemma TakeStep<T>(s: seq<T>, i: nat)
    requires i < |s|
    ensures s[..i + 1] == s[..i] + [s[i]]
  {
  }
}
