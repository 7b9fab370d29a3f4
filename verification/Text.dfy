/** Strings as the program compares them. JavaScript's `<` on strings compares UTF-16 code
    units, so a character from U+E000 to U+FFFF sorts after every supplementary character,
    whose code units begin with a surrogate. */
module Text {

  /** The position of a character in code-unit order. */
  function Rank(c: char): (r: int)
  {
    var n := c as int;
    if 0xE000 <= n < 0x1_0000 then n + 0x11_0000 else n
  }

  predicate Less(a: string, b: string)
  {
    b != [] && (a == [] || Rank(a[0]) < Rank(b[0]) || (a[0] == b[0] && Less(a[1..], b[1..])))
  }

  // ----- The order is that of the UTF-16 code units

  /** The code units of a character: itself, or a surrogate pair. */
  function CodeUnits(c: char): (r: seq<int>)
  {
    var n := c as int;
    if n < 0x1_0000 then [n] else [0xD800 + (n - 0x1_0000) / 0x400, 0xDC00 + (n - 0x1_0000) % 0x400]
  }

  function Utf16(s: string): seq<int>
  {
    if s == [] then [] else CodeUnits(s[0]) + Utf16(s[1..])
  }

  /** A proper prefix, or smaller where they first differ. */
  ghost predicate Before(a: seq<int>, b: seq<int>)
  {
    exists k :: 0 <= k <= |a| && k < |b| && a[..k] == b[..k] && (k == |a| || a[k] < b[k])
  }

  lemma BeforeStepwise(x: int, a: seq<int>, y: int, b: seq<int>)
    ensures Before([x] + a, [y] + b) <==> x < y || (x == y && Before(a, b))
  {
    var p, q := [x] + a, [y] + b;
    if k :| 0 <= k <= |p| && k < |q| && p[..k] == q[..k] && (k == |p| || p[k] < q[k]) {
      if k > 0 {
        assert x == p[..k][0] == q[..k][0] == y;
        assert p[1..] == a && q[1..] == b && a[..k - 1] == p[..k][1..] == q[..k][1..] == b[..k - 1];
      }
    }
    if x < y { assert p[..0] == q[..0]; }
    if x == y && Before(a, b) {
      var k :| 0 <= k <= |a| && k < |b| && a[..k] == b[..k] && (k == |a| || a[k] < b[k]);
      assert p[..k + 1] == [x] + a[..k] && q[..k + 1] == [y] + b[..k];
    }
  }

  lemma BeforeByCharacter(c: char, a: seq<int>, d: char, b: seq<int>)
    ensures Before(CodeUnits(c) + a, CodeUnits(d) + b) <==> Rank(c) < Rank(d) || (c == d && Before(a, b))
  {
    var u, v := CodeUnits(c), CodeUnits(d);
    assert u + a == [u[0]] + (u[1..] + a) && v + b == [v[0]] + (v[1..] + b);
    BeforeStepwise(u[0], u[1..] + a, v[0], v[1..] + b);
    if |u| == 2 && |v| == 2 {
      BeforeStepwise(u[1], a, v[1], b);
      assert u[1..] + a == [u[1]] + a && v[1..] + b == [v[1]] + b;
    }
    if |u| == 1 && |v| == 1 { assert u[1..] + a == a && v[1..] + b == b; }
  }

  /** `a < b` compares the code units of the two strings. */
  lemma {:induction false} LessIsByCodeUnits(a: string, b: string)
    ensures Less(a, b) <==> Before(Utf16(a), Utf16(b))
  {
    if a != [] && b != [] {
      LessIsByCodeUnits(a[1..], b[1..]);
      BeforeByCharacter(a[0], Utf16(a[1..]), b[0], Utf16(b[1..]));
      hide Before, CodeUnits;
    } else if b != [] {
      assert Utf16(a)[..0] == Utf16(b)[..0];
    }
  }

  /** On characters below the surrogates, the first that differ decide by their codes. */
  lemma {:induction false} LessByCode(a: string, b: string, k: nat)
    requires k < |a| && k < |b| && a[..k] == b[..k] && a[k] != b[k]
    requires a[k] as int < 0xD800 && b[k] as int < 0xD800
    ensures Less(a, b) <==> a[k] < b[k]
  {
    if k > 0 {
      assert a[0] == a[..k][0] == b[..k][0] == b[0];
      assert a[1..][..k - 1] == a[..k][1..] == b[..k][1..] == b[1..][..k - 1];
      LessByCode(a[1..], b[1..], k - 1);
    }
  }

  // ----- A total order

  lemma {:induction false} LessIsTotal(a: string, b: string)
    ensures Less(a, b) || a == b || Less(b, a)
    ensures !(Less(a, b) && Less(b, a))
    ensures !Less(a, a)
  {
    if a != [] {
      LessIsTotal(a[1..], if b == [] then [] else b[1..]);
    }
    if a != [] && b != [] && a[0] == b[0] {
      assert a == [a[0]] + a[1..] && b == [b[0]] + b[1..];
    }
  }

  lemma {:induction false} LessIsTransitive(a: string, b: string, c: string)
    requires Less(a, b) && Less(b, c)
    ensures Less(a, c)
  {
    if a != [] && a[0] == b[0] && b[0] == c[0] {
      LessIsTransitive(a[1..], b[1..], c[1..]);
    }
  }

  /** Strictly ascending, hence without repetitions. */
  predicate Ascending(s: seq<string>)
  {
    forall i, j | 0 <= i < j < |s| :: Less(s[i], s[j])
  }

  predicate Distinct<T(==)>(s: seq<T>)
  {
    forall i, j | 0 <= i < j < |s| :: s[i] != s[j]
  }

  lemma SplitLast<T>(s: seq<T>)
    requires s != []
    ensures s == s[..|s| - 1] + [s[|s| - 1]]
  {
  }

  lemma AppendCounts<T>(a: seq<T>, b: seq<T>, x: T)
    ensures multiset(a + b)[x] == multiset(a)[x] + multiset(b)[x]
  {
  }

  lemma AscendingIsDistinct(s: seq<string>)
    requires Ascending(s)
    ensures Distinct(s)
  {
    forall i, j | 0 <= i < j < |s| ensures s[i] != s[j] {
      LessIsTotal(s[i], s[j]);
    }
  }

  lemma HeadIsLeast(s: seq<string>, x: string)
    requires Ascending(s) && x in s
    ensures x == s[0] || Less(s[0], x)
  {
    var i :| 0 <= i < |s| && s[i] == x;
  }

  /** A set has one ascending listing. */
  lemma {:induction false} AscendingIsUnique(s: seq<string>, t: seq<string>)
    requires Ascending(s) && Ascending(t)
    requires forall x :: x in s <==> x in t
    ensures s == t
  {
    assert forall i | 0 <= i < |s| :: s[i] in t;
    assert forall i | 0 <= i < |t| :: t[i] in s;
    if s != [] {
      HeadIsLeast(s, t[0]);
      HeadIsLeast(t, s[0]);
      LessIsTotal(s[0], t[0]);
      AscendingIsDistinct(s);
      AscendingIsDistinct(t);
      forall x ensures x in s[1..] <==> x in t[1..] {
        TailMembers(s, x);
        TailMembers(t, x);
      }
      AscendingIsUnique(s[1..], t[1..]);
      assert s == [s[0]] + s[1..] && t == [t[0]] + t[1..];
    }
  }

  lemma TailMembers(s: seq<string>, x: string)
    requires s != [] && Distinct(s)
    ensures x in s[1..] <==> x in s && x != s[0]
  {
    if x in s && x != s[0] {
      var i :| 0 <= i < |s| && s[i] == x;
      assert s[1..][i - 1] == x;
    }
  }

  /** The index of the first element above `x`, or the end of the list. */
  function InsertionPoint(s: seq<string>, x: string): (k: nat)
    ensures k <= |s|
    ensures forall i | 0 <= i < k :: !Less(x, s[i])
    ensures k < |s| ==> Less(x, s[k])
  {
    if s == [] || Less(x, s[0]) then 0 else 1 + InsertionPoint(s[1..], x)
  }

  function Insert(s: seq<string>, x: string): (r: seq<string>)
    ensures |r| == |s| + 1
    ensures forall y :: y in r <==> y in s || y == x
  {
    var k := InsertionPoint(s, x);
    s[..k] + [x] + s[k..]
  }

  lemma InsertKeepsAscending(s: seq<string>, x: string)
    requires Ascending(s) && x !in s
    ensures Ascending(Insert(s, x))
  {
    var k := InsertionPoint(s, x);
    var r := Insert(s, x);
    forall i, j | 0 <= i < j < |r| ensures Less(r[i], r[j]) {
      if i < k && j == k {
        LessIsTotal(s[i], x);
      } else if i == k {
        if j - 1 > k { LessIsTransitive(x, s[k], s[j - 1]); }
      }
    }
  }

  /** `Array.prototype.sort` with the default order, on a list without repetitions. */
  function Sorted(s: seq<string>): (r: seq<string>)
    ensures forall x :: x in r <==> x in s
  {
    if s == [] then [] else Insert(Sorted(s[1..]), s[0])
  }

  lemma {:induction false} SortedIsAscending(s: seq<string>)
    requires Distinct(s)
    ensures Ascending(Sorted(s))
  {
    if s != [] {
      SortedIsAscending(s[1..]);
      TailMembers(s, s[0]);
      InsertKeepsAscending(Sorted(s[1..]), s[0]);
    }
  }

  // ----- ASCII letters and digits

  const CAPITALS := "ABCDEFGHIJKLMNOPQRSTUVWXYZ"
  const LETTERS := "abcdefghijklmnopqrstuvwxyz"
  const DIGITS := "0123456789"

  lemma CapitalsAreARange(c: char)
    ensures c in CAPITALS <==> 'A' <= c <= 'Z'
  {
    if 'A' <= c <= 'Z' { assert CAPITALS[c as int - 'A' as int] == c; }
  }

  lemma LettersAreARange(c: char)
    ensures c in LETTERS <==> 'a' <= c <= 'z'
  {
    if 'a' <= c <= 'z' { assert LETTERS[c as int - 'a' as int] == c; }
  }

  lemma DigitsAreARange(c: char)
    ensures c in DIGITS <==> '0' <= c <= '9'
  {
    if '0' <= c <= '9' { assert DIGITS[c as int - '0' as int] == c; }
  }
}
