/** The preview cache key: the file's path, its modification time in Unix
    seconds and the size class, each printed with %x and joined with no
    separator. */
module CacheKey {
  import opened Common
  import opened GoHex
  import opened PreviewSizes

  /** previewCacheKey: %x of the path, of the time, and of the size's name,
      in that order. */
  function Key(path: seq<Byte>, modTime: Int64, size: PreviewSize): string {
    HexBytes(path) + HexInt(modTime) + SizeHex(size)
  }

  /** %x of the size's name, written out: "thumb" and "big" in hex
      (SizeHexIsHexOfName). */
  function SizeHex(size: PreviewSize): string {
    match size
    case Thumb => "7468756d62"
    case Big => "626967"
  }

  lemma SizeHexIsHexOfName(size: PreviewSize)
    ensures SizeHex(size) == HexBytes(SizeName(size))
  {
  }

  /** The key is %x of the path, then of the time, then of the size's name. */
  lemma KeyIsHexOfFields(path: seq<Byte>, modTime: Int64, size: PreviewSize)
    ensures Key(path, modTime, size) == HexBytes(path) + HexInt(modTime) + HexBytes(SizeName(size))
  {
    SizeHexIsHexOfName(size);
  }

  /** Each piece of a key decodes back to its field once the length of the
      path is known; nothing in the key itself marks where the path ends,
      which is why the key is not injective (KeyCollision). */
  lemma KeyPieces(path: seq<Byte>, modTime: Int64, size: PreviewSize)
    ensures var key, n := Key(path, modTime, size), 2 * |SizeName(size)|;
      && |key| >= 2 * |path| + n
      && UnhexBytes(key[..2 * |path|]) == Some(path)
      && HexIntValue(key[2 * |path|..|key| - n]) == Some(modTime as int)
      && UnhexBytes(key[|key| - n..]) == Some(SizeName(size))
  {
    var p, t, s := HexBytes(path), HexInt(modTime), SizeHex(size);
    SizeHexIsHexOfName(size);
    UnhexHexBytes(path);
    UnhexHexBytes(SizeName(size));
    HexIntValueOfHexInt(modTime);
    assert (p + t + s)[..|p|] == p;
    assert (p + t + s)[|p|..|p| + |t|] == t;
    assert (p + t + s)[|p| + |t|..] == s;
  }

  /** The last character of a key names its size class: '2' (the low digit
      of "b" in "thumb") or '7' (of "g" in "big"). */
  function SizeMark(size: PreviewSize): char {
    match size
    case Thumb => '2'
    case Big => '7'
  }

  lemma KeyEndsWithSizeMark(path: seq<Byte>, modTime: Int64, size: PreviewSize)
    ensures var key := Key(path, modTime, size); key[|key| - 1] == SizeMark(size)
  {
    var s := SizeHex(size);
    var key := Key(path, modTime, size);
    assert key == (HexBytes(path) + HexInt(modTime)) + s;
    assert key[|key| - 1] == s[|s| - 1];
  }

  /** Whatever the paths and times, keys for different size classes differ. */
  lemma KeyDeterminesSize(p1: seq<Byte>, t1: Int64, s1: PreviewSize, p2: seq<Byte>, t2: Int64, s2: PreviewSize)
    requires Key(p1, t1, s1) == Key(p2, t2, s2)
    ensures s1 == s2
  {
    KeyEndsWithSizeMark(p1, t1, s1);
    KeyEndsWithSizeMark(p2, t2, s2);
  }

  lemma CancelSuffix(a: string, b: string, c: string)
    requires a + c == b + c
    ensures a == b
  {
    assert |a| == |b|;
    assert a == (a + c)[..|a|];
    assert b == (b + c)[..|b|];
  }

  lemma CancelPrefix(a: string, b: string, c: string)
    requires c + a == c + b
    ensures a == b
  {
    assert a == (c + a)[|c|..];
    assert b == (c + b)[|c|..];
  }

  /** For one modification time, the key determines the path and the size. */
  lemma KeyInjectiveForFixedTime(p1: seq<Byte>, s1: PreviewSize, p2: seq<Byte>, s2: PreviewSize, modTime: Int64)
    requires Key(p1, modTime, s1) == Key(p2, modTime, s2)
    ensures p1 == p2 && s1 == s2
  {
    KeyDeterminesSize(p1, modTime, s1, p2, modTime, s2);
    var t, n := HexInt(modTime), SizeHex(s1);
    CancelSuffix(HexBytes(p1) + t, HexBytes(p2) + t, n);
    CancelSuffix(HexBytes(p1), HexBytes(p2), t);
    HexBytesInjective(p1, p2);
  }

  /** For one path, the key determines the modification time and the size. */
  lemma KeyInjectiveForFixedPath(path: seq<Byte>, t1: Int64, s1: PreviewSize, t2: Int64, s2: PreviewSize)
    requires Key(path, t1, s1) == Key(path, t2, s2)
    ensures t1 == t2 && s1 == s2
  {
    KeyDeterminesSize(path, t1, s1, path, t2, s2);
    var p, n := HexBytes(path), SizeHex(s1);
    CancelSuffix(p + HexInt(t1), p + HexInt(t2), n);
    CancelPrefix(HexInt(t1), HexInt(t2), p);
    HexIntInjective(t1, t2);
  }

  /** Path "a" at time 0x120 and path "a\x12" at time 0 share a key: the
      pieces are joined without a separator. */
  lemma KeyCollision(size: PreviewSize)
    ensures Key([0x61], 0x120, size) == Key([0x61, 0x12], 0, size)
  {
    var a: seq<Byte>, a12: seq<Byte> := [0x61], [0x61, 0x12];
    assert HexBytes(a[1..]) == [];
    assert HexBytes(a) == ['6', '1'];
    assert HexBytes(a12[1..]) == ['1', '2'];
    assert HexBytes(a12) == ['6', '1', '1', '2'];
    assert HexNat(0x12) == HexNat(1) + ['2'] == ['1', '2'];
    assert HexInt(0x120) == HexNat(0x12) + ['0'] == ['1', '2', '0'];
    assert HexInt(0) == ['0'];
  }
}
