/**
 * The path sharder of the limited disk cache (`getKey`): a tile's identity
 * becomes a nested path whose numeric directories hold at most 1000 entries each.
 * Paths are kept as their sequence of components, the arguments that
 * `os.path.join` receives.
 */
module Sharding {
  import opened Options
  import opened Decimal

  type Path = seq<string>

  /** The identity of a tile: layer name, zoom, column, row and file extension. */
  datatype TileId = TileId(layer: string, z: int, x: int, y: int, extension: string)

  /** A coordinate split into its millions, thousands and units. */
  datatype Shard = Shard(hi: int, mid: int, lo: int)

  /** The quotient by 10^6 is the quotient by 1000 taken twice. */
  lemma MillionsOfThousands(n: int)
    ensures n / 1000000 == (n / 1000) / 1000
    ensures n == (n / 1000000) * 1000000 + ((n / 1000) % 1000) * 1000 + n % 1000
  {
    var q := n / 1000;
    assert n == q * 1000 + n % 1000;
    assert q == (q / 1000) * 1000 + q % 1000;
  }

  /**
   * `int(n / 1000000)`, `int(n / 1000) % 1000` and `int(n) % 1000` for an
   * integer n. Python 2's `/` floors and its `%` is never negative for a
   * positive divisor, as Dafny's are, so this holds for negative n too.
   */
  function Split(n: int): (s: Shard)
    ensures 0 <= s.mid < 1000 && 0 <= s.lo < 1000
    ensures n == s.hi * 1000000 + s.mid * 1000 + s.lo
    ensures 0 <= n < 1000000000 ==> 0 <= s.hi < 1000
  {
    MillionsOfThousands(n);
    Shard(n / 1000000, (n / 1000) % 1000, n % 1000)
  }

  /** The path of a tile below `base`: base/layer/zz/xxx/xxx/xxx/yyy/yyy/yyy.ext */
  function Key(base: string, t: TileId): (p: Path)
    ensures |p| == 9 && p[0] == base && p[1] == t.layer
  {
    var xs, ys := Split(t.x), Split(t.y);
    [base, t.layer, FormatInt(t.z, 2),
     FormatInt(xs.hi, 3), FormatInt(xs.mid, 3), FormatInt(xs.lo, 3),
     FormatInt(ys.hi, 3), FormatInt(ys.mid, 3), FormatInt(ys.lo, 3) + "." + t.extension]
  }

  /** Reads a coordinate back from its three formatted shard components. */
  function Unsplit(hi: string, mid: string, lo: string): int {
    ParseInt(hi) * 1000000 + ParseInt(mid) * 1000 + ParseInt(lo)
  }

  /** Reads a tile identity back from a path laid out as Key lays it out. */
  function ParseKey(p: Path): Option<TileId> {
    if |p| != 9 || |p[8]| < 4 || p[8][3] != '.' then None
    else
      Some(TileId(p[1], ParseInt(p[2]), Unsplit(p[3], p[4], p[5]),
                  Unsplit(p[6], p[7], p[8][..3]), p[8][4..]))
  }

  lemma ShardRoundTrip(n: int)
    ensures var s := Split(n);
      Unsplit(FormatInt(s.hi, 3), FormatInt(s.mid, 3), FormatInt(s.lo, 3)) == n
  {
    var s := Split(n);
    FormatIntRoundTrip(s.hi, 3);
    FormatIntRoundTrip(s.mid, 3);
    FormatIntRoundTrip(s.lo, 3);
  }

  /** Every tile identity can be read back from its path. */
  lemma KeyRoundTrip(base: string, t: TileId)
    ensures ParseKey(Key(base, t)) == Some(t)
  {
    var p := Key(base, t);
    var ys := Split(t.y);
    ThreeDigits(ys.lo);
    assert p[8][..3] == FormatInt(ys.lo, 3) && p[8][3] == '.' && p[8][4..] == t.extension;
    FormatIntRoundTrip(t.z, 2);
    ShardRoundTrip(t.x);
    ShardRoundTrip(t.y);
  }

  /** Distinct tiles, or distinct base directories, never share a path. */
  lemma KeyInjective(base1: string, t1: TileId, base2: string, t2: TileId)
    ensures Key(base1, t1) == Key(base2, t2) ==> base1 == base2 && t1 == t2
  {
    KeyRoundTrip(base1, t1);
    KeyRoundTrip(base2, t2);
  }

  /**
   * For coordinates in [0, 10^9) every numeric directory below the zoom level is
   * a three-digit name, so no directory has more than 1000 numeric entries, and
   * the zoom directory is two digits for zoom levels in [0, 100).
   */
  lemma KeyFanOut(base: string, t: TileId)
    requires 0 <= t.z < 100 && 0 <= t.x < 1000000000 && 0 <= t.y < 1000000000
    ensures var p := Key(base, t);
      && |p[2]| == 2 && IsDigits(p[2])
      && (forall i :: 3 <= i < 8 ==> |p[i]| == 3 && IsDigits(p[i]))
      && p[8] == p[8][..3] + "." + t.extension && IsDigits(p[8][..3])
  {
    var p := Key(base, t);
    var xs, ys := Split(t.x), Split(t.y);
    assert |Digits(t.z)| <= 2 by {
      if t.z >= 10 { assert t.z / 10 < 10; }
    }
    ThreeDigits(xs.hi);
    ThreeDigits(xs.mid);
    ThreeDigits(xs.lo);
    ThreeDigits(ys.hi);
    ThreeDigits(ys.mid);
    ThreeDigits(ys.lo);
    assert p[8][..3] == FormatInt(ys.lo, 3);
  }

  /** The example of the cache's design: tile (osm, 3, 1234567, 890123, png). */
  lemma KeyExample()
    ensures Key("base", TileId("osm", 3, 1234567, 890123, "png"))
         == ["base", "osm", "03", "001", "234", "567", "000", "890", "123.png"]
  {
    var xs, ys := Split(1234567), Split(890123);
    assert xs == Shard(1, 234, 567) && ys == Shard(0, 890, 123);
    assert FormatInt(3, 2) == "03" by { assert Digits(3) == "3"; }
    assert FormatInt(1, 3) == "001" by { assert Digits(1) == "1"; }
    assert FormatInt(0, 3) == "000" by { assert Digits(0) == "0"; }
    ThreeDigitsExample(2, 3, 4);
    ThreeDigitsExample(5, 6, 7);
    ThreeDigitsExample(8, 9, 0);
    ThreeDigitsExample(1, 2, 3);
    assert FormatInt(123, 3) + "." + "png" == "123.png";
  }

  lemma ThreeDigitsExample(a: nat, b: nat, c: nat)
    requires 1 <= a < 10 && b < 10 && c < 10
    ensures FormatInt(a * 100 + b * 10 + c, 3) == [DigitChar(a), DigitChar(b), DigitChar(c)]
    ensures DigitChar(a) == "0123456789"[a] && DigitChar(b) == "0123456789"[b]
    ensures DigitChar(c) == "0123456789"[c]
  {
    var n := a * 100 + b * 10 + c;
    assert n / 10 == a * 10 + b && n % 10 == c;
    assert (n / 10) / 10 == a && (n / 10) % 10 == b;
    assert Digits(n) == Digits(n / 10) + [DigitChar(c)];
    assert Digits(n / 10) == [DigitChar(a), DigitChar(b)];
  }

  /** `filename + ".%d.tmp" % pid`: the writer's private temporary name beside the key. */
  function TempPath(key: Path, pid: nat): (tmp: Path)
    requires |key| > 0
    ensures |tmp| == |key| && tmp[..|key| - 1] == key[..|key| - 1]
    ensures tmp != key
  {
    var last := key[|key| - 1] + "." + FormatInt(pid, 0) + ".tmp";
    assert |last| > |key[|key| - 1]|;
    key[..|key| - 1] + [last]
  }
}
