/** Value types shared by every part of the sync server model: bytes, the three
    ways a Rust call can end, decimal and hexadecimal text, and path joining. */
module Base {

  type byte = x: int | 0 <= x < 256
  type Bytes = seq<byte>

  datatype Option<+T> = None | Some(value: T)

  /** How a Rust call ends: it returns `Ok`, it returns `Err`, or a failed
      `unwrap`/`expect` panics. */
  datatype Result<+T, +E> = Ok(value: T) | Err(error: E) | Panic

  /** The ASCII bytes of `"{}"`, `"OK"` and `"1"`. */
  const EMPTY_JSON_OBJECT: Bytes := [123, 125]
  const OK_BYTES: Bytes := [79, 75]
  const ASCII_ONE: Bytes := [49]

  // ---------------------------------------------------------------- decimal

  predicate IsDigit(c: char) { '0' <= c <= '9' }

  predicate AllDigits(s: string) { forall i :: 0 <= i < |s| ==> IsDigit(s[i]) }

  function DigitChar(d: nat): (c: char)
    requires d < 10
    ensures IsDigit(c) && c as int - '0' as int == d
  {
    ('0' as int + d) as char
  }

  function DigitValue(c: char): nat
    requires IsDigit(c)
  {
    c as int - '0' as int
  }

  /** `format!("{}", n)` for a non-negative integer. */
  function Decimal(n: nat): (s: string)
    ensures |s| >= 1 && AllDigits(s)
    ensures s[0] == '0' ==> n == 0
    decreases n
  {
    if n < 10 then [DigitChar(n)] else Decimal(n / 10) + [DigitChar(n % 10)]
  }

  /** `format!("{}", i)` for a signed integer. */
  function SignedDecimal(i: int): (s: string)
    ensures |s| >= 1 && (s[0] == '-' <==> i < 0)
  {
    if i < 0 then "-" + Decimal(-i) else Decimal(i)
  }

  function ParseDecimal(s: string): nat
    requires |s| >= 1 && AllDigits(s)
    decreases |s|
  {
    if |s| == 1 then DigitValue(s[0])
    else ParseDecimal(s[..|s| - 1]) * 10 + DigitValue(s[|s| - 1])
  }

  /** Reading back what `Decimal` writes gives the number. */
  lemma {:induction false} DecimalRoundTrip(n: nat)
    ensures ParseDecimal(Decimal(n)) == n
    decreases n
  {
    if n >= 10 {
      var s := Decimal(n);
      assert s[..|s| - 1] == Decimal(n / 10);
      DecimalRoundTrip(n / 10);
    }
  }

  lemma DecimalInjective(m: nat, n: nat)
    requires Decimal(m) == Decimal(n)
    ensures m == n
  {
    DecimalRoundTrip(m);
    DecimalRoundTrip(n);
  }

  // ------------------------------------------------------------ hexadecimal

  /** The lower-case hexadecimal digit for `v`. */
  function HexDigit(v: nat): (c: char)
    requires v < 16
    ensures IsHexDigit(c)
  {
    if v < 10 then ('0' as int + v) as char else ('a' as int + v - 10) as char
  }

  predicate IsHexDigit(c: char) { '0' <= c <= '9' || 'a' <= c <= 'f' }

  predicate AllHex(s: string) { forall i :: 0 <= i < |s| ==> IsHexDigit(s[i]) }

  function HexValue(c: char): (v: nat)
    requires IsHexDigit(c)
    ensures v < 16 && HexDigit(v) == c
  {
    if c <= '9' then c as int - '0' as int else c as int - 'a' as int + 10
  }

  /** Lower-case hexadecimal, two digits per byte (`hex::encode`, `{:x}`). */
  function Hex(bs: Bytes): (s: string)
    ensures |s| == 2 * |bs| && AllHex(s)
  {
    if bs == [] then "" else [HexDigit(bs[0] / 16), HexDigit(bs[0] % 16)] + Hex(bs[1..])
  }

  function UnHex(s: string): (bs: Bytes)
    requires |s| % 2 == 0 && AllHex(s)
    decreases |s|
  {
    if s == [] then [] else [HexValue(s[0]) * 16 + HexValue(s[1])] + UnHex(s[2..])
  }

  /** Decoding the hexadecimal text of some bytes gives those bytes back. */
  lemma {:induction false} HexRoundTrip(bs: Bytes)
    ensures UnHex(Hex(bs)) == bs
  {
    if bs != [] {
      var s := Hex(bs);
      var hi, lo := bs[0] / 16, bs[0] % 16;
      assert s[0] == HexDigit(hi) && s[1] == HexDigit(lo);
      assert s[2..] == Hex(bs[1..]);
      HexRoundTrip(bs[1..]);
    }
  }

  lemma HexInjective(a: Bytes, b: Bytes)
    requires Hex(a) == Hex(b)
    ensures a == b
  {
    HexRoundTrip(a);
    HexRoundTrip(b);
  }

  // ------------------------------------------------------------ codecs

  /** Text and compression codecs of the libraries the server calls (kept
      abstract); a decoder answers `None` for input it rejects. */
  type Utf8Decode = Bytes -> Option<string>
  type Utf8Encode = string -> Bytes
  type Gunzip = Bytes -> Option<Bytes>
  type ZstdEncode = Bytes -> Bytes
  type ZstdDecode = Bytes -> Option<Bytes>

  // ------------------------------------------------------------------ paths

  /** `PathBuf::join` with a relative, separator-free component. */
  function PathJoin(dir: string, component: string): (p: string)
    ensures |p| >= |component| && p[|p| - |component|..] == component
    ensures dir != "" && dir[|dir| - 1] != '/' ==> p == dir + "/" + component
  {
    if dir == "" then component
    else if dir[|dir| - 1] == '/' then dir + component
    else dir + "/" + component
  }

  /** The index of the last `c` in `p`, or -1 when there is none. */
  function LastIndex(p: string, c: char): (k: int)
    ensures -1 <= k < |p|
    ensures k >= 0 ==> p[k] == c
    ensures forall i :: k < i < |p| ==> p[i] != c
  {
    if p == [] then -1 else if p[|p| - 1] == c then |p| - 1 else LastIndex(p[..|p| - 1], c)
  }

  /** The non-empty `/`-separated segments of a path, in order. */
  function Segments(p: string): (segs: seq<string>)
    ensures forall i :: 0 <= i < |segs| ==> segs[i] != "" && '/' !in segs[i]
    decreases |p|
  {
    if p == [] then []
    else if p[|p| - 1] == '/' then Segments(p[..|p| - 1])
    else
      var k := LastIndex(p, '/');
      var last := p[k + 1..];
      assert '/' !in last by {
        forall i | 0 <= i < |last| ensures last[i] != '/' { assert last[i] == p[k + 1 + i]; }
      }
      Segments(p[..k + 1]) + [last]
  }

  /** Joining a non-empty, separator-free component adds exactly one segment. */
  lemma {:induction false} SegmentsJoin(dir: string, component: string)
    requires component != "" && '/' !in component
    ensures Segments(PathJoin(dir, component)) == Segments(dir) + [component]
  {
    var p := PathJoin(dir, component);
    var k := |p| - |component| - 1;
    if k >= 0 {
      assert p[k] == '/';
      assert p[..k + 1] == dir || p[..k + 1] == dir + "/";
      assert Segments(dir + "/") == Segments(dir) by {
        assert (dir + "/")[..|dir|] == dir;
      }
    } else {
      assert p == component;
    }
    assert p[|p| - 1] == component[|component| - 1];
    assert forall i :: k < i < |p| ==> p[i] == component[i - k - 1];
    assert LastIndex(p, '/') == k by { LastIndexIs(p, '/', k); }
    assert p[k + 1..] == component;
  }

  /** The last `c` is the one with no `c` after it. */
  lemma {:induction false} LastIndexIs(p: string, c: char, k: int)
    requires -1 <= k < |p| && (k >= 0 ==> p[k] == c)
    requires forall i :: k < i < |p| ==> p[i] != c
    ensures LastIndex(p, c) == k
    decreases |p|
  {
    if p != [] && p[|p| - 1] != c {
      LastIndexIs(p[..|p| - 1], c, k);
    }
  }
}
