/** Memory as sequences of bytes: copying into a buffer, C strings, and the
    byte form of the fixed-width integers that the program copies into buffers. */
module Bytes {
  type Byte = b: int | 0 <= b < 256
  type Data = seq<Byte>

  const SLASH: Byte := '/' as int

  function Zeros(n: nat): (r: Data)
    ensures |r| == n && forall i | 0 <= i < n :: r[i] == 0
  {
    seq(n, _ => 0)
  }

  /** The buffer `d` after copying `src` to position `at`. */
  function Overlay(d: Data, at: nat, src: Data): (r: Data)
    requires at + |src| <= |d|
    ensures |r| == |d|
    ensures forall i | 0 <= i < |d| ::
              r[i] == if at <= i < at + |src| then src[i - at] else d[i]
  {
    d[..at] + src + d[at + |src|..]
  }

  /** `memcpy` into a buffer. */
  method CopyBytes(buf: array<Byte>, at: nat, src: Data)
    requires at + |src| <= buf.Length
    modifies buf
    ensures buf[..] == Overlay(old(buf[..]), at, src)
  {
    forall i | 0 <= i < |src| {
      buf[at + i] := src[i];
    }
  }

  /** The first `limit` bytes, or all there are. */
  function CutAt(d: Data, limit: nat): Data {
    if |d| <= limit then d else d[..limit]
  }

  // ---------- C strings ----------

  /** A C string without its terminator. */
  ghost predicate NulFree(s: Data) {
    forall i | 0 <= i < |s| :: s[i] != 0
  }

  /** Position of the first NUL, or the length when there is none. */
  function StrLen(d: Data): (n: nat)
    ensures n <= |d| && NulFree(d[..n])
    ensures n < |d| ==> d[n] == 0
  {
    if d == [] || d[0] == 0 then 0
    else
      var n := 1 + StrLen(d[1..]);
      assert forall i | 1 <= i < n :: d[i] == d[1..][..n - 1][i - 1];
      n
  }

  /** The string that starts at the beginning of `d`. */
  function CString(d: Data): (s: Data)
    ensures NulFree(s) && s <= d
  {
    d[..StrLen(d)]
  }

  /** The first NUL is the only position that has no NUL before it. */
  lemma StrLenUnique(d: Data, n: nat)
    requires n <= |d| && NulFree(d[..n])
    requires n < |d| ==> d[n] == 0
    ensures StrLen(d) == n
  {
    if d != [] && d[0] != 0 {
      assert d[..n][0] != 0 || n == 0;
      assert d[1..][..n - 1] == d[..n][1..];
      StrLenUnique(d[1..], n - 1);
    }
  }

  lemma {:induction false} StrLenAtLeast(d: Data, n: nat)
    requires n <= |d| && NulFree(d[..n])
    ensures StrLen(d) >= n
  {
    if n > 0 {
      assert d[..n][0] == d[0];
      assert d[1..][..n - 1] == d[..n][1..];
      StrLenAtLeast(d[1..], n - 1);
    }
  }

  /** `strncmp(a, s, n) == 0`: `a` is raw memory, `s` a string with its NUL implied. */
  predicate StrnEqual(a: Data, s: Data, n: nat)
    requires n <= |a|
  {
    n == 0 ||
    (var c: Byte := if s == [] then 0 else s[0];
     a[0] == c && (c == 0 || StrnEqual(a[1..], if s == [] then [] else s[1..], n - 1)))
  }

  /** What the bounded comparison decides, in closed form. */
  lemma StrnEqualMeaning(a: Data, s: Data, n: nat)
    requires n <= |a| && NulFree(s)
    ensures StrnEqual(a, s, n) <==>
            if |s| < n then a[..|s|] == s && a[|s|] == 0 else a[..n] == s[..n]
  {
    if n > 0 && s != [] {
      StrnEqualMeaning(a[1..], s[1..], n - 1);
      if |s| < n {
        assert a[..|s|] == [a[0]] + a[1..][..|s| - 1];
        assert s == [s[0]] + s[1..];
        assert a[1..][|s| - 1] == a[|s|];
      } else {
        assert a[..n] == [a[0]] + a[1..][..n - 1];
        assert s[..n] == [s[0]] + s[1..][..n - 1];
      }
    }
  }

  /** `strcmp(a, b) < 0`, on unsigned bytes. */
  predicate StrLess(a: Data, b: Data) {
    b != [] && (a == [] || a[0] < b[0] || (a[0] == b[0] && StrLess(a[1..], b[1..])))
  }

  lemma StrLessIrreflexive(a: Data)
    ensures !StrLess(a, a)
  {
  }

  lemma StrLessTransitive(a: Data, b: Data, c: Data)
    requires StrLess(a, b) && StrLess(b, c)
    ensures StrLess(a, c)
  {
  }

  /** Strings that are not ordered either way are the same string. */
  lemma {:induction false} StrLessTotal(a: Data, b: Data)
    ensures StrLess(a, b) || StrLess(b, a) || a == b
  {
    if a != [] && b != [] && a[0] == b[0] {
      StrLessTotal(a[1..], b[1..]);
      assert a == [a[0]] + a[1..] && b == [b[0]] + b[1..];
    }
  }

  lemma PrefixStarts(a: Data, b: Data, k: nat)
    requires 0 < k <= |a| && k <= |b| && a[..k] == b[..k]
    ensures a[0] == b[0]
  {
    assert a[..k][0] == b[..k][0];
  }

  /** Where the order of strings is decided: at the first place where they differ,
      the end of a string coming before every byte. */
  lemma {:induction false} StrLessMeaning(a: Data, b: Data)
    ensures StrLess(a, b) <==>
            exists k :: 0 <= k <= |a| && k < |b| && a[..k] == b[..k] && (k == |a| || a[k] < b[k])
  {
    if a != [] && b != [] && a[0] == b[0] {
      StrLessMeaning(a[1..], b[1..]);
      if StrLess(a, b) {
        var k :| 0 <= k < |a| && k < |b| - 1 && a[1..][..k] == b[1..][..k]
                 && (k == |a| - 1 || a[1..][k] < b[1..][k]);
        assert a[..k + 1] == [a[0]] + a[1..][..k] && b[..k + 1] == [b[0]] + b[1..][..k];
      }
      if k :| 0 <= k <= |a| && k < |b| && a[..k] == b[..k] && (k == |a| || a[k] < b[k]) {
        assert a[1..][..k - 1] == a[..k][1..] && b[1..][..k - 1] == b[..k][1..];
      }
    } else {
      assert a[..0] == b[..0];
      forall k | 0 < k <= |a| && k < |b| && a[..k] == b[..k] ensures false {
        PrefixStarts(a, b, k);
      }
    }
  }

  /** `a` comes before `b` or is `b`, byte by byte: where they first differ, `a` ends or has the smaller byte. */
  ghost predicate NotAfter(a: Data, b: Data) {
    forall k | 0 <= k < |a| && k <= |b| && a[..k] == b[..k] :: k < |b| && a[k] <= b[k]
  }

  lemma NotAfterMeaning(a: Data, b: Data)
    ensures NotAfter(a, b) <==> !StrLess(b, a)
  {
    StrLessMeaning(b, a);
    hide StrLess;
  }

  // ---------- fixed-width integers ----------

  function Pow256(k: nat): (r: nat)
    ensures r > 0
  {
    if k == 0 then 1 else 256 * Pow256(k - 1)
  }

  /** The low `width` bytes of `n`, least significant first. */
  function ToLE(n: nat, width: nat): (r: Data)
    ensures |r| == width
  {
    if width == 0 then [] else [n % 256] + ToLE(n / 256, width - 1)
  }

  function FromLE(d: Data): nat {
    if d == [] then 0 else d[0] + 256 * FromLE(d[1..])
  }

  lemma {:induction false} LERoundTrip(n: nat, width: nat)
    requires n < Pow256(width)
    ensures FromLE(ToLE(n, width)) == n
  {
    if width > 0 {
      LERoundTrip(n / 256, width - 1);
      assert ToLE(n, width)[1..] == ToLE(n / 256, width - 1);
    }
  }

  const INT_LIMIT: int := 0x8000_0000

  /** A C `int` in memory: four bytes, two's complement. */
  function ToInt32(n: int): (r: Data)
    requires -INT_LIMIT <= n < INT_LIMIT
    ensures |r| == 4
  {
    ToLE(if n < 0 then n + 2 * INT_LIMIT else n, 4)
  }

  function FromInt32(d: Data): int
    requires |d| == 4
  {
    var m := FromLE(d);
    if m < INT_LIMIT then m else m - 2 * INT_LIMIT
  }

  function Weigh(a: int, b: int, c: int, d: int): int {
    a + 256 * b + 65536 * c + 16777216 * d
  }

  /** Least significant byte first; the highest bit of the last one is the sign. */
  lemma IntBytes(d: Data)
    requires |d| == 4
    ensures FromInt32(d) == Weigh(d[0], d[1], d[2], if d[3] < 128 then d[3] else d[3] as int - 256)
  {
    FourBytes(d);
  }

  lemma FourBytes(d: Data)
    requires |d| >= 4
    ensures FromLE(d) == Weigh(d[0], d[1], d[2], d[3]) + 0x1_0000_0000 * FromLE(d[4..])
  {
    assert d[1..][1..] == d[2..] && d[2..][1..] == d[3..] && d[3..][1..] == d[4..];
    assert FromLE(d[2..]) == d[2] + 256 * FromLE(d[3..]) && FromLE(d[3..]) == d[3] + 256 * FromLE(d[4..]);
  }

  lemma Int32RoundTrip(n: int)
    requires -INT_LIMIT <= n < INT_LIMIT
    ensures FromInt32(ToInt32(n)) == n
  {
    assert Pow256(4) == 2 * INT_LIMIT by {
      assert Pow256(2) == 65536;
      assert Pow256(4) == 65536 * Pow256(2);
    }
    LERoundTrip(if n < 0 then n + 2 * INT_LIMIT else n, 4);
  }
}
