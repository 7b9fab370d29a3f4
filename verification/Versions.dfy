/** src/update-check.ts: the order on versions, and what it has to do with precedence as
    section 11 of Semantic Versioning 2.0.0 defines it. */
module Versions {
  import opened Wrappers
  import opened Text

  /** JavaScript's Number on a string, None for NaN. */
  type ToNumber = string -> Option<real>

  function SplitDots(s: string): (r: seq<string>)
    ensures |r| >= 1
  {
    if s == "" then [""]
    else
      var r := SplitDots(s[1..]);
      if s[0] == '.' then [""] + r else [[s[0]] + r[0]] + r[1..]
  }

  /** The part before the first character that stops. */
  function Before(s: string, stop: char -> bool): (r: string)
    ensures |r| <= |s| && r == s[..|r|] && (forall i | 0 <= i < |r| :: !stop(s[i]))
    ensures |r| < |s| ==> stop(s[|r|])
  {
    if s == "" || stop(s[0]) then "" else [s[0]] + Before(s[1..], stop)
  }

  datatype Parsed = Parsed(core: seq<string>, pre: Option<seq<string>>)

  function Parse(v: string): (r: Parsed)
    ensures |r.core| >= 1 && (r.pre.Some? ==> |r.pre.value| >= 1)
  {
    var core := Before(v, c => c == '-');
    if |core| == |v| then Parsed(SplitDots(v), None)
    else Parsed(SplitDots(core), Some(SplitDots(v[|core| + 1..])))
  }

  // ----- The comparison

  function Longer(a: nat, b: nat): nat { if a > b then a else b }

  /** A missing or unreadable component counts as zero. */
  function Component(n: ToNumber, core: seq<string>, i: nat): real
  {
    if i < |core| && n(core[i]).Some? then n(core[i]).value else 0.0
  }

  function CompareCore(n: ToNumber, a: seq<string>, b: seq<string>, i: nat): int
    decreases Longer(|a|, |b|) - i
  {
    if i >= Longer(|a|, |b|) then 0
    else if Component(n, a, i) > Component(n, b, i) then 1
    else if Component(n, a, i) < Component(n, b, i) then -1
    else CompareCore(n, a, b, i + 1)
  }

  function CompareIdentifiers(n: ToNumber, a: seq<string>, b: seq<string>, i: nat): int
    decreases Longer(|a|, |b|) - i
  {
    if i >= Longer(|a|, |b|) then 0
    else if i >= |a| then -1
    else if i >= |b| then 1
    else if n(a[i]).Some? && n(b[i]).Some? then
      if n(a[i]).value > n(b[i]).value then 1
      else if n(a[i]).value < n(b[i]).value then -1
      else CompareIdentifiers(n, a, b, i + 1)
    else if a[i] != b[i] then (if Less(b[i], a[i]) then 1 else -1)
    else CompareIdentifiers(n, a, b, i + 1)
  }

  function Compare(n: ToNumber, a: string, b: string): int
  {
    var pa, pb := Parse(a), Parse(b);
    var core := CompareCore(n, pa.core, pb.core, 0);
    if core != 0 then core
    else if pa.pre.None? then (if pb.pre.None? then 0 else 1)
    else if pb.pre.None? then -1
    else CompareIdentifiers(n, pa.pre.value, pb.pre.value, 0)
  }

  method CompareSemver(n: ToNumber, a: string, b: string) returns (r: int)
    ensures r == Compare(n, a, b)
  {
    var pa, pb := Parse(a), Parse(b);
    for i := 0 to Longer(|pa.core|, |pb.core|)
      invariant CompareCore(n, pa.core, pb.core, 0) == CompareCore(n, pa.core, pb.core, i)
    {
      var va, vb := Component(n, pa.core, i), Component(n, pb.core, i);
      if va > vb { return 1; }
      if va < vb { return -1; }
    }
    if pa.pre.None? && pb.pre.None? { return 0; }
    if pa.pre.None? { return 1; }
    if pb.pre.None? { return -1; }
    var idsA, idsB := pa.pre.value, pb.pre.value;
    for i := 0 to Longer(|idsA|, |idsB|)
      invariant CompareIdentifiers(n, idsA, idsB, 0) == CompareIdentifiers(n, idsA, idsB, i)
    {
      if i >= |idsA| { return -1; }
      if i >= |idsB| { return 1; }
      var x, y := idsA[i], idsB[i];
      if n(x).Some? && n(y).Some? {
        if n(x).value > n(y).value { return 1; }
        if n(x).value < n(y).value { return -1; }
      } else if x != y {
        return if Less(y, x) then 1 else -1;
      }
    }
    return 0;
  }

  // ----- On all strings: swapping the two turns the sign

  lemma {:induction false} CoreIsAntisymmetric(n: ToNumber, a: seq<string>, b: seq<string>, i: nat)
    ensures CompareCore(n, a, b, i) == -CompareCore(n, b, a, i)
    decreases Longer(|a|, |b|) - i
  {
    if i < Longer(|a|, |b|) { CoreIsAntisymmetric(n, a, b, i + 1); }
  }

  lemma {:induction false} IdentifiersAreAntisymmetric(n: ToNumber, a: seq<string>, b: seq<string>, i: nat)
    ensures CompareIdentifiers(n, a, b, i) == -CompareIdentifiers(n, b, a, i)
    decreases Longer(|a|, |b|) - i
  {
    if i < |a| && i < |b| {
      LessIsTotal(a[i], b[i]);
      IdentifiersAreAntisymmetric(n, a, b, i + 1);
    }
  }

  lemma CompareIsAntisymmetric(n: ToNumber, a: string, b: string)
    ensures Compare(n, a, b) == -Compare(n, b, a) && Compare(n, a, a) == 0
  {
    var pa, pb := Parse(a), Parse(b);
    CoreIsAntisymmetric(n, pa.core, pb.core, 0);
    CoreIsAntisymmetric(n, pa.core, pa.core, 0);
    if pa.pre.Some? {
      IdentifiersAreAntisymmetric(n, pa.pre.value, pa.pre.value, 0);
      if pb.pre.Some? { IdentifiersAreAntisymmetric(n, pa.pre.value, pb.pre.value, 0); }
    }
    hide Parse, CompareCore, CompareIdentifiers;
  }

  // ----- Precedence

  datatype Identifier = Numeric(value: nat) | Word(text: string)

  datatype Version = Version(core: seq<nat>, pre: Option<seq<Identifier>>)

  /** Numbers by value, words by character, and every number below every word. */
  predicate IdentifierPrecedes(x: Identifier, y: Identifier)
  {
    match (x, y)
    case (Numeric(m), Numeric(n)) => m < n
    case (Word(s), Word(t)) => Less(s, t)
    case (Numeric(_), Word(_)) => true
    case (Word(_), Numeric(_)) => false
  }

  /** Decided by the first difference; if there is none, the longer list is higher. */
  ghost predicate DiffersAt(a: seq<Identifier>, b: seq<Identifier>, i: nat)
  {
    i <= |a| && i < |b| && (forall k | 0 <= k < i :: a[k] == b[k]) && (i == |a| || IdentifierPrecedes(a[i], b[i]))
  }

  ghost predicate ListPrecedes(a: seq<Identifier>, b: seq<Identifier>)
  {
    exists i: nat :: DiffersAt(a, b, i)
  }

  function CoreAt(core: seq<nat>, i: nat): nat
  {
    if i < |core| then core[i] else 0
  }

  ghost predicate CoreLowerAt(a: seq<nat>, b: seq<nat>, i: nat)
  {
    CoreAt(a, i) < CoreAt(b, i) && forall j: nat | j < i :: CoreAt(a, j) == CoreAt(b, j)
  }

  ghost predicate CorePrecedes(a: seq<nat>, b: seq<nat>)
  {
    exists i: nat :: CoreLowerAt(a, b, i)
  }

  ghost predicate SameCore(a: seq<nat>, b: seq<nat>)
  {
    forall i: nat :: CoreAt(a, i) == CoreAt(b, i)
  }

  /** A prerelease is lower than its release. */
  ghost predicate Precedes(a: Version, b: Version)
  {
    CorePrecedes(a.core, b.core)
    || (SameCore(a.core, b.core) && a.pre.Some? && (b.pre.None? || ListPrecedes(a.pre.value, b.pre.value)))
  }

  /** `1.0` and `1.0.0` are the same version here. */
  ghost predicate Equivalent(a: Version, b: Version)
  {
    SameCore(a.core, b.core) && a.pre == b.pre
  }

  lemma IdentifierOrder(x: Identifier, y: Identifier, z: Identifier)
    ensures IdentifierPrecedes(x, y) || x == y || IdentifierPrecedes(y, x)
    ensures !(IdentifierPrecedes(x, y) && IdentifierPrecedes(y, x))
    ensures !IdentifierPrecedes(x, x)
    ensures IdentifierPrecedes(x, y) && IdentifierPrecedes(y, z) ==> IdentifierPrecedes(x, z)
  {
    if x.Word? && y.Word? {
      LessIsTotal(x.text, y.text);
      if z.Word? && Less(x.text, y.text) && Less(y.text, z.text) { LessIsTransitive(x.text, y.text, z.text); }
    }
    if x.Word? { LessIsTotal(x.text, x.text); }
  }

  lemma ListNotBoth(a: seq<Identifier>, b: seq<Identifier>, i: nat, j: nat)
    ensures !(DiffersAt(a, b, i) && DiffersAt(b, a, j))
  {
    if i < |a| && i < |b| { IdentifierOrder(a[i], b[i], a[i]); }
    if j < |a| && j < |b| { IdentifierOrder(a[j], b[j], a[j]); }
  }

  lemma ListIsAsymmetric(a: seq<Identifier>, b: seq<Identifier>)
    requires ListPrecedes(a, b)
    ensures !ListPrecedes(b, a) && a != b
  {
    var i: nat :| DiffersAt(a, b, i);
    forall j: nat ensures !DiffersAt(b, a, j) { ListNotBoth(a, b, i, j); }
    ListNotBoth(a, b, i, i);
  }

  lemma ListIsTransitive(a: seq<Identifier>, b: seq<Identifier>, c: seq<Identifier>)
    requires ListPrecedes(a, b) && ListPrecedes(b, c)
    ensures ListPrecedes(a, c)
  {
    var i: nat :| DiffersAt(a, b, i);
    var j: nat :| DiffersAt(b, c, j);
    if i == j && i < |a| && i < |c| { IdentifierOrder(a[i], b[i], c[i]); }
    assert DiffersAt(a, c, if i < j then i else j);
  }

  lemma CoreNotBoth(a: seq<nat>, b: seq<nat>, i: nat, j: nat)
    ensures !(CoreLowerAt(a, b, i) && CoreLowerAt(b, a, j))
    ensures SameCore(a, b) ==> !CoreLowerAt(a, b, i) && !CoreLowerAt(b, a, i)
  {
  }

  lemma CoreIsAsymmetric(a: seq<nat>, b: seq<nat>)
    ensures !(CorePrecedes(a, b) && CorePrecedes(b, a))
    ensures SameCore(a, b) ==> !CorePrecedes(a, b) && !CorePrecedes(b, a)
  {
    forall i: nat, j: nat ensures !(CoreLowerAt(a, b, i) && CoreLowerAt(b, a, j)) { CoreNotBoth(a, b, i, j); }
  }

  lemma CoreIsTransitive(a: seq<nat>, b: seq<nat>, c: seq<nat>)
    requires CorePrecedes(a, b) && CorePrecedes(b, c)
    ensures CorePrecedes(a, c)
  {
    var i: nat :| CoreLowerAt(a, b, i);
    var j: nat :| CoreLowerAt(b, c, j);
    assert CoreLowerAt(a, c, if i < j then i else j);
  }

  lemma CoreCongruence(a: seq<nat>, b: seq<nat>, c: seq<nat>)
    requires SameCore(a, b)
    ensures CorePrecedes(a, c) <==> CorePrecedes(b, c)
    ensures CorePrecedes(c, a) <==> CorePrecedes(c, b)
    ensures SameCore(a, c) <==> SameCore(b, c)
    ensures SameCore(c, a) <==> SameCore(c, b)
  {
    assert forall i: nat :: CoreLowerAt(a, c, i) <==> CoreLowerAt(b, c, i);
    assert forall i: nat :: CoreLowerAt(c, a, i) <==> CoreLowerAt(c, b, i);
  }

  lemma PrecedenceIsAsymmetric(a: Version, b: Version)
    requires Precedes(a, b)
    ensures !Precedes(b, a) && !Equivalent(a, b)
  {
    CoreIsAsymmetric(a.core, b.core);
    SameCoreIsSymmetric(a.core, b.core);
    if a.pre.Some? && b.pre.Some? && ListPrecedes(a.pre.value, b.pre.value) {
      ListIsAsymmetric(a.pre.value, b.pre.value);
    }
    hide CorePrecedes, SameCore, ListPrecedes;
  }

  lemma SameCoreIsSymmetric(a: seq<nat>, b: seq<nat>)
    ensures SameCore(a, b) <==> SameCore(b, a)
  {
  }

  /** Not higher, and not higher again: not higher. */
  lemma PrecedenceIsTransitive(a: Version, b: Version, c: Version)
    requires Precedes(a, b) || Equivalent(a, b)
    requires Precedes(b, c) || Equivalent(b, c)
    ensures Precedes(a, c) || Equivalent(a, c)
  {
    hide CorePrecedes, SameCore, ListPrecedes;
    CoreIsAsymmetric(a.core, b.core);
    CoreIsAsymmetric(b.core, c.core);
    if SameCore(a.core, b.core) {
      CoreCongruence(a.core, b.core, c.core);
    } else if SameCore(b.core, c.core) {
      CoreCongruence(b.core, c.core, a.core);
    } else {
      CoreIsTransitive(a.core, b.core, c.core);
    }
    if a.pre.Some? && b.pre.Some? && c.pre.Some?
       && ListPrecedes(a.pre.value, b.pre.value) && ListPrecedes(b.pre.value, c.pre.value) {
      ListIsTransitive(a.pre.value, b.pre.value, c.pre.value);
    }
  }

  // ----- What a version string means

  predicate Digit(c: char) { '0' <= c <= '9' }
  predicate Letter(c: char) { 'a' <= c <= 'z' || 'A' <= c <= 'Z' }

  predicate DigitString(s: string)
  {
    s != "" && forall i | 0 <= i < |s| :: Digit(s[i])
  }

  function DigitsValue(s: string): nat
  {
    if s == "" then 0
    else
      var last := s[|s| - 1];
      10 * DigitsValue(s[..|s| - 1]) + if Digit(last) then last as int - '0' as int else 0
  }

  /** Up to here Number is exact. */
  const EXACT_BOUND := 0x20_0000_0000_0000

  predicate PlainNumber(s: string) { DigitString(s) && DigitsValue(s) < EXACT_BOUND }

  /** The components of the core are numbers; whatever follows a dash is a prerelease. */
  predicate WellFormed(v: string)
  {
    forall c | c in Parse(v).core :: PlainNumber(c)
  }

  ghost predicate ReadsExactly(n: ToNumber, s: string)
  {
    PlainNumber(s) ==> n(s) == Some(DigitsValue(s) as real)
  }

  ghost predicate ReadsInOrder(n: ToNumber, s: string, t: string)
  {
    n(s).Some? && n(t).Some? && (DigitsValue(s) <= DigitsValue(t) ==> n(s).value <= n(t).value)
  }

  /** What is used about Number: it reads digits, exactly when they are few and rounded but in order
      when they are many. An infinite result stands above or below all finite ones. */
  ghost predicate ReadsNumbers(n: ToNumber)
  {
    (forall s :: ReadsExactly(n, s))
    && forall s, t | DigitString(s) && DigitString(t) :: ReadsInOrder(n, s, t)
  }

  function IdentifierOf(s: string): Identifier
  {
    if DigitString(s) then Numeric(DigitsValue(s)) else Word(s)
  }

  function CoreOf(core: seq<string>): seq<nat>
  {
    seq(|core|, i requires 0 <= i < |core| => DigitsValue(core[i]))
  }

  function IdentifiersOf(ids: seq<string>): seq<Identifier>
  {
    seq(|ids|, i requires 0 <= i < |ids| => IdentifierOf(ids[i]))
  }

  function VersionOf(v: string): Version
  {
    var p := Parse(v);
    Version(CoreOf(p.core), if p.pre.None? then None else Some(IdentifiersOf(p.pre.value)))
  }

  // ----- Where the comparison departs from precedence

  predicate BothNumbers(n: ToNumber, x: string, y: string) { n(x).Some? && n(y).Some? }

  /** The comparison tells two identifiers apart. */
  predicate Apart(n: ToNumber, x: string, y: string)
  {
    if BothNumbers(n, x, y) then n(x).value != n(y).value else x != y
  }

  /** How it orders them then. */
  predicate Below(n: ToNumber, x: string, y: string)
  {
    if BothNumbers(n, x, y) then n(x).value < n(y).value else Less(x, y)
  }

  /** Two identifiers that are different and yet read as the same number, such as `1` and `1e0`. */
  predicate Tied(n: ToNumber, x: string, y: string)
  {
    IdentifierOf(x) != IdentifierOf(y) && !Apart(n, x, y)
  }

  /** A word taken to be below a number, or two words that read as numbers in the opposite order. */
  predicate Inverted(n: ToNumber, x: string, y: string)
  {
    match (DigitString(x), DigitString(y))
    case (true, true) => false
    case (true, false) => Below(n, y, x)
    case (false, true) => Below(n, x, y)
    case (false, false) => Below(n, x, y) != Less(x, y)
  }

  /** The first place where the identifiers differ. */
  predicate FirstDifference(a: seq<string>, b: seq<string>, i: nat)
  {
    i < |a| && i < |b| && IdentifierOf(a[i]) != IdentifierOf(b[i])
    && forall k | 0 <= k < i :: IdentifierOf(a[k]) == IdentifierOf(b[k])
  }

  /** The first place that the comparison tells apart, or the end of the shorter list. */
  predicate Decides(n: ToNumber, a: seq<string>, b: seq<string>, j: nat)
  {
    j <= |a| && j <= |b| && (forall k | 0 <= k < j :: !Apart(n, a[k], b[k]))
    && if j < |a| && j < |b| then Apart(n, a[j], b[j]) else |a| != |b|
  }

  predicate LowerAt(n: ToNumber, a: seq<string>, b: seq<string>, j: nat)
  {
    if j < |a| && j < |b| then Below(n, a[j], b[j]) else j == |a|
  }

  /** After a tie, what decides later happens to decide as the tied identifiers would. */
  ghost predicate TieGoesRight(n: ToNumber, a: seq<string>, b: seq<string>, i: nat)
    requires i < |a| && i < |b|
  {
    exists j: nat :: j > i && Decides(n, a, b, j)
      && (LowerAt(n, a, b, j) <==> IdentifierPrecedes(IdentifierOf(a[i]), IdentifierOf(b[i])))
  }

  /** The first difference is an inverted pair, or a tie that later identifiers do not put right. */
  ghost predicate DepartsAt(n: ToNumber, a: seq<string>, b: seq<string>, i: nat)
  {
    FirstDifference(a, b, i)
    && if Tied(n, a[i], b[i]) then !TieGoesRight(n, a, b, i) else Inverted(n, a[i], b[i])
  }

  ghost predicate ListDeparts(n: ToNumber, a: seq<string>, b: seq<string>)
  {
    exists i: nat :: DepartsAt(n, a, b, i)
  }

  lemma {:induction false} CoreDecides(n: ToNumber, a: seq<string>, b: seq<string>, i: nat)
    requires (forall c | c in a :: PlainNumber(c)) && forall c | c in b :: PlainNumber(c)
    requires ReadsNumbers(n)
    requires forall k: nat | k < i :: CoreAt(CoreOf(a), k) == CoreAt(CoreOf(b), k)
    ensures var r := CompareCore(n, a, b, i);
            (r == 1 && CorePrecedes(CoreOf(b), CoreOf(a)))
            || (r == -1 && CorePrecedes(CoreOf(a), CoreOf(b)))
            || (r == 0 && SameCore(CoreOf(a), CoreOf(b)))
    decreases Longer(|a|, |b|) - i
  {
    if i < Longer(|a|, |b|) {
      ComponentIsValue(n, a, i);
      ComponentIsValue(n, b, i);
      if Component(n, a, i) == Component(n, b, i) {
        CoreDecides(n, a, b, i + 1);
      } else {
        assert CoreLowerAt(CoreOf(a), CoreOf(b), i) || CoreLowerAt(CoreOf(b), CoreOf(a), i);
      }
    }
  }

  lemma ComponentIsValue(n: ToNumber, core: seq<string>, i: nat)
    requires (forall c | c in core :: PlainNumber(c)) && ReadsNumbers(n)
    ensures Component(n, core, i) == CoreAt(CoreOf(core), i) as real
  {
    if i < |core| { assert ReadsExactly(n, core[i]); }
  }

  lemma IdentifierDecides(n: ToNumber, s: string, t: string)
    requires ReadsNumbers(n)
    ensures IdentifierOf(s) == IdentifierOf(t) ==> !Apart(n, s, t)
    ensures Apart(n, s, t) ==> (Below(n, s, t) <==> !Below(n, t, s))
    ensures Apart(n, s, t) && IdentifierOf(s) != IdentifierOf(t) ==>
              if Inverted(n, s, t) then Below(n, s, t) <==> IdentifierPrecedes(IdentifierOf(t), IdentifierOf(s))
              else Below(n, s, t) <==> IdentifierPrecedes(IdentifierOf(s), IdentifierOf(t))
  {
    if DigitString(s) && DigitString(t) { assert ReadsInOrder(n, s, t) && ReadsInOrder(n, t, s); }
    LessIsTotal(s, t);
  }

  /** Where the comparison of two lists is decided. */
  lemma {:induction false} WhereDecided(n: ToNumber, a: seq<string>, b: seq<string>, i: nat) returns (j: nat)
    requires i <= |a| && i <= |b| && forall k | 0 <= k < i :: !Apart(n, a[k], b[k])
    ensures var r := CompareIdentifiers(n, a, b, i);
            if r == 0 then |a| == |b| && forall k | 0 <= k < |a| :: !Apart(n, a[k], b[k])
            else Decides(n, a, b, j) && r == if LowerAt(n, a, b, j) then -1 else 1
    decreases Longer(|a|, |b|) - i
  {
    j := i;
    if i < |a| && i < |b| {
      LessIsTotal(a[i], b[i]);
      if !Apart(n, a[i], b[i]) { j := WhereDecided(n, a, b, i + 1); }
    }
  }

  ghost predicate ListFollows(n: ToNumber, a: seq<string>, b: seq<string>)
  {
    var r, x, y := CompareIdentifiers(n, a, b, 0), IdentifiersOf(a), IdentifiersOf(b);
    (r == -1 <==> ListPrecedes(x, y)) && (r == 0 <==> x == y) && (r == 1 <==> ListPrecedes(y, x))
  }

  lemma NoDifference(n: ToNumber, a: seq<string>, b: seq<string>)
    requires ReadsNumbers(n) && forall i: nat :: !FirstDifference(a, b, i)
    ensures ListFollows(n, a, b)
  {
    var x, y, m := IdentifiersOf(a), IdentifiersOf(b), if |a| < |b| then |a| else |b|;
    AllEqual(a, b, m);
    forall k | 0 <= k < m ensures !Apart(n, a[k], b[k]) { IdentifierDecides(n, a[k], b[k]); }
    var j := WhereDecided(n, a, b, 0);
    if |a| == |b| {
      assert x == y;
      NotItself(x);
    } else {
      assert DiffersAt(x, y, m) || DiffersAt(y, x, m);
      if ListPrecedes(x, y) { ListIsAsymmetric(x, y); } else { ListIsAsymmetric(y, x); }
    }
    hide Apart, Below, ListPrecedes;
  }

  lemma NotItself(x: seq<Identifier>)
    ensures !ListPrecedes(x, x)
  {
    if ListPrecedes(x, x) { ListIsAsymmetric(x, x); }
  }

  lemma {:induction false} AllEqual(a: seq<string>, b: seq<string>, m: nat)
    requires m <= |a| && m <= |b| && forall i: nat :: !FirstDifference(a, b, i)
    ensures forall k | 0 <= k < m :: IdentifierOf(a[k]) == IdentifierOf(b[k])
  {
    if m > 0 {
      AllEqual(a, b, m - 1);
      assert !FirstDifference(a, b, m - 1);
    }
  }

  lemma DecidedOnce(n: ToNumber, a: seq<string>, b: seq<string>, i: nat, j: nat)
    requires Decides(n, a, b, i) && Decides(n, a, b, j)
    ensures i == j
  {
  }

  /** At a first difference the lists are ordered as the two identifiers are. */
  lemma DifferenceOrders(a: seq<string>, b: seq<string>, i: nat)
    requires FirstDifference(a, b, i)
    ensures var x, y := IdentifiersOf(a), IdentifiersOf(b);
            x != y && (ListPrecedes(x, y) <==> !ListPrecedes(y, x))
            && (ListPrecedes(x, y) <==> IdentifierPrecedes(IdentifierOf(a[i]), IdentifierOf(b[i])))
  {
    var x, y := IdentifiersOf(a), IdentifiersOf(b);
    IdentifierOrder(x[i], y[i], x[i]);
    assert x[i] != y[i] && if IdentifierPrecedes(x[i], y[i]) then DiffersAt(x, y, i) else DiffersAt(y, x, i);
    if ListPrecedes(x, y) { ListIsAsymmetric(x, y); } else { ListIsAsymmetric(y, x); }
    hide IdentifierPrecedes, IdentifierOf, ListPrecedes, DiffersAt;
  }

  lemma OnlyHere(n: ToNumber, a: seq<string>, b: seq<string>, i: nat)
    requires FirstDifference(a, b, i)
    ensures ListDeparts(n, a, b) <==> DepartsAt(n, a, b, i)
  {
    forall k: nat | DepartsAt(n, a, b, k) ensures k == i { }
    hide Tied, TieGoesRight, Inverted, IdentifierOf;
  }

  lemma UntiedDecides(n: ToNumber, a: seq<string>, b: seq<string>, i: nat)
    requires ReadsNumbers(n) && FirstDifference(a, b, i) && !Tied(n, a[i], b[i])
    ensures CompareIdentifiers(n, a, b, 0) == if Below(n, a[i], b[i]) then -1 else 1
  {
    forall k | 0 <= k < i ensures !Apart(n, a[k], b[k]) { IdentifierDecides(n, a[k], b[k]); }
    var j := WhereDecided(n, a, b, 0);
    hide IdentifierOf, Below;
    assert Decides(n, a, b, i);
    if CompareIdentifiers(n, a, b, 0) != 0 { DecidedOnce(n, a, b, i, j); }
    hide Apart;
  }

  lemma TiedDecides(n: ToNumber, a: seq<string>, b: seq<string>, i: nat)
    requires ReadsNumbers(n) && FirstDifference(a, b, i) && Tied(n, a[i], b[i])
    ensures var r := CompareIdentifiers(n, a, b, 0);
            TieGoesRight(n, a, b, i) <==>
            r == if IdentifierPrecedes(IdentifierOf(a[i]), IdentifierOf(b[i])) then -1 else 1
  {
    forall k | 0 <= k < i ensures !Apart(n, a[k], b[k]) { IdentifierDecides(n, a[k], b[k]); }
    var j := WhereDecided(n, a, b, 0);
    var right := IdentifierPrecedes(IdentifierOf(a[i]), IdentifierOf(b[i]));
    if CompareIdentifiers(n, a, b, 0) == 0 {
      assert forall k: nat :: !Decides(n, a, b, k);
    } else {
      assert j > i;
      forall k: nat | Decides(n, a, b, k) ensures k == j { DecidedOnce(n, a, b, k, j); }
    }
    hide IdentifierOf, IdentifierPrecedes, Apart, LowerAt;
  }

  /** Exactly when the sign for two lists of identifiers, whatever they are, is that of precedence. */
  lemma IdentifiersFollowPrecedence(n: ToNumber, a: seq<string>, b: seq<string>)
    requires ReadsNumbers(n)
    ensures ListFollows(n, a, b) <==> !ListDeparts(n, a, b)
    ensures ListDeparts(n, a, b) ==> IdentifiersOf(a) != IdentifiersOf(b)
  {
    if i: nat :| FirstDifference(a, b, i) {
      OnlyHere(n, a, b, i);
      DifferenceOrders(a, b, i);
      IdentifierDecides(n, a[i], b[i]);
      IdentifierOrder(IdentifierOf(a[i]), IdentifierOf(b[i]), IdentifierOf(a[i]));
      if Tied(n, a[i], b[i]) { TiedDecides(n, a, b, i); } else { UntiedDecides(n, a, b, i); }
      hide Apart, Below, Inverted, IdentifierOf, IdentifierPrecedes, ListPrecedes, TieGoesRight, CompareIdentifiers,
           ReadsNumbers;
    } else {
      NoDifference(n, a, b);
    }
  }

  // ----- When the comparison of versions follows precedence

  /** Two prereleases of one release whose identifiers depart. */
  ghost predicate PrereleasesDepart(n: ToNumber, a: string, b: string)
  {
    var pa, pb := Parse(a), Parse(b);
    SameCore(CoreOf(pa.core), CoreOf(pb.core)) && pa.pre.Some? && pb.pre.Some?
    && ListDeparts(n, pa.pre.value, pb.pre.value)
  }

  ghost predicate FollowsPrecedence(n: ToNumber, a: string, b: string)
  {
    && (Compare(n, a, b) == -1 <==> Precedes(VersionOf(a), VersionOf(b)))
    && (Compare(n, a, b) == 0 <==> Equivalent(VersionOf(a), VersionOf(b)))
    && (Compare(n, a, b) == 1 <==> Precedes(VersionOf(b), VersionOf(a)))
  }

  lemma ListSign(n: ToNumber, a: seq<string>, b: seq<string>, i: nat)
    ensures -1 <= CompareIdentifiers(n, a, b, i) <= 1
    decreases Longer(|a|, |b|) - i
  {
  }

  lemma ListsAreOrdered(a: seq<string>, b: seq<string>)
    ensures var x, y := IdentifiersOf(a), IdentifiersOf(b);
            if x == y then !ListPrecedes(x, y) && !ListPrecedes(y, x) else ListPrecedes(x, y) <==> !ListPrecedes(y, x)
  {
    var x, y, m := IdentifiersOf(a), IdentifiersOf(b), if |a| < |b| then |a| else |b|;
    if i: nat :| FirstDifference(a, b, i) {
      DifferenceOrders(a, b, i);
    } else {
      AllEqual(a, b, m);
      NotItself(x);
      if |a| != |b| {
        assert DiffersAt(x, y, m) || DiffersAt(y, x, m);
        if ListPrecedes(x, y) { ListIsAsymmetric(x, y); } else { ListIsAsymmetric(y, x); }
      } else {
        assert x == y;
      }
    }
    hide IdentifierOf, ListPrecedes, IdentifierPrecedes;
  }

  predicate SignFollows(r: int, lower: bool, same: bool, higher: bool)
  {
    (r == -1 <==> lower) && (r == 0 <==> same) && (r == 1 <==> higher)
  }

  /** The core decides if it differs, then the presence of a prerelease, then its identifiers. */
  lemma SignOfVersions(core: int, list: int, x: Version, y: Version)
    requires || (core == 1 && CorePrecedes(y.core, x.core))
             || (core == -1 && CorePrecedes(x.core, y.core))
             || (core == 0 && SameCore(x.core, y.core))
    ensures core == 0 <==> SameCore(x.core, y.core)
    ensures if core == 0 && x.pre.Some? && y.pre.Some? then
              && (Precedes(x, y) <==> ListPrecedes(x.pre.value, y.pre.value))
              && (Precedes(y, x) <==> ListPrecedes(y.pre.value, x.pre.value))
              && (Equivalent(x, y) <==> x.pre == y.pre)
            else
              SignFollows(if core != 0 then core else if x.pre.Some? then -1 else if y.pre.Some? then 1 else 0,
                          Precedes(x, y), Equivalent(x, y), Precedes(y, x))
  {
    SameCoreIsSymmetric(x.core, y.core);
    CoreIsAsymmetric(x.core, y.core);
    hide SameCore, CorePrecedes, ListPrecedes;
  }

  /** Exactly when the sign is that of precedence. */
  lemma CompareFollowsPrecedence(n: ToNumber, a: string, b: string)
    requires ReadsNumbers(n) && WellFormed(a) && WellFormed(b)
    ensures FollowsPrecedence(n, a, b) <==> !PrereleasesDepart(n, a, b)
    ensures -1 <= Compare(n, a, b) <= 1
    ensures PrereleasesDepart(n, a, b) ==>
              && (Compare(n, a, b) == 1 ==> Precedes(VersionOf(a), VersionOf(b)))
              && (Compare(n, a, b) == -1 ==> Precedes(VersionOf(b), VersionOf(a)))
  {
    var pa, pb := Parse(a), Parse(b);
    var x, y := VersionOf(a), VersionOf(b);
    CoreDecides(n, pa.core, pb.core, 0);
    if pa.pre.Some? && pb.pre.Some? {
      IdentifiersFollowPrecedence(n, pa.pre.value, pb.pre.value);
      ListSign(n, pa.pre.value, pb.pre.value, 0);
      ListsAreOrdered(pa.pre.value, pb.pre.value);
      SignOfVersions(CompareCore(n, pa.core, pb.core, 0), CompareIdentifiers(n, pa.pre.value, pb.pre.value, 0), x, y);
    } else {
      SignOfVersions(CompareCore(n, pa.core, pb.core, 0), 0, x, y);
    }
    hide SameCore, CorePrecedes, ListPrecedes, ListDeparts, CompareCore, CompareIdentifiers, WellFormed, ReadsNumbers,
         Parse, Precedes, Equivalent;
  }

  /** Versions among which no two depart are totally preordered: with antisymmetry, which always
      holds, what is missing is transitivity. */
  lemma CompareIsTotalPreorder(n: ToNumber, a: string, b: string, c: string)
    requires ReadsNumbers(n) && WellFormed(a) && WellFormed(b) && WellFormed(c)
    requires !PrereleasesDepart(n, a, b) && !PrereleasesDepart(n, b, c) && !PrereleasesDepart(n, a, c)
    ensures Compare(n, a, b) <= 0 && Compare(n, b, c) <= 0 ==> Compare(n, a, c) <= 0
  {
    CompareFollowsPrecedence(n, a, b);
    CompareFollowsPrecedence(n, b, c);
    CompareFollowsPrecedence(n, a, c);
    hide Compare, Precedes, Equivalent, WellFormed, PrereleasesDepart;
    if (Precedes(VersionOf(a), VersionOf(b)) || Equivalent(VersionOf(a), VersionOf(b)))
       && (Precedes(VersionOf(b), VersionOf(c)) || Equivalent(VersionOf(b), VersionOf(c))) {
      PrecedenceIsTransitive(VersionOf(a), VersionOf(b), VersionOf(c));
    }
  }

  // ----- Words that begin with a letter

  /** The only word that begins with a letter and that Number reads as a number is Infinity. */
  predicate PlainWord(s: string)
  {
    s != "" && Letter(s[0]) && s != "Infinity" && forall i | 0 <= i < |s| :: Digit(s[i]) || Letter(s[i]) || s[i] == '-'
  }

  ghost predicate PlainIdentifier(n: ToNumber, s: string)
  {
    PlainNumber(s) || (PlainWord(s) && n(s).None?)
  }

  ghost predicate PlainVersion(n: ToNumber, v: string)
  {
    var p := Parse(v);
    WellFormed(v) && (p.pre.Some? ==> forall c | c in p.pre.value :: PlainIdentifier(n, c))
  }

  /** Numbers read exactly and letter-led words, which Number does not read, never depart. */
  lemma PlainVersionsFollowPrecedence(n: ToNumber, a: string, b: string)
    requires ReadsNumbers(n) && PlainVersion(n, a) && PlainVersion(n, b)
    ensures !PrereleasesDepart(n, a, b) && FollowsPrecedence(n, a, b)
  {
    var pa, pb := Parse(a), Parse(b);
    if pa.pre.Some? && pb.pre.Some? {
      var x, y := pa.pre.value, pb.pre.value;
      forall i | 0 <= i < |x| && i < |y| ensures !Tied(n, x[i], y[i]) && !Inverted(n, x[i], y[i]) {
        PlainNeverDeparts(n, x[i], y[i]);
      }
    }
    CompareFollowsPrecedence(n, a, b);
    hide Tied, Inverted, PlainIdentifier, Compare;
  }

  lemma PlainNeverDeparts(n: ToNumber, x: string, y: string)
    requires ReadsNumbers(n) && PlainIdentifier(n, x) && PlainIdentifier(n, y)
    ensures !Tied(n, x, y) && !Inverted(n, x, y)
  {
    assert ReadsExactly(n, x) && ReadsExactly(n, y);
  }

  /** `pickHigherVersion`: the empty string counts as no version. */
  method PickHigherVersion(n: ToNumber, a: Option<string>, b: Option<string>) returns (r: Option<string>)
    ensures r == a || r == b
    ensures (a.Some? && a.value != "") || (b.Some? && b.value != "") ==> r.Some? && r.value != ""
    ensures a.Some? && a.value != "" && b.Some? && b.value != "" ==>
              r == if Compare(n, a.value, b.value) < 0 then b else a
    ensures a.Some? && a.value != "" && b.Some? && b.value != "" && ReadsNumbers(n)
            && WellFormed(a.value) && WellFormed(b.value) && !PrereleasesDepart(n, a.value, b.value) ==>
              && !Precedes(VersionOf(r.value), VersionOf(a.value))
              && !Precedes(VersionOf(r.value), VersionOf(b.value))
              && (Equivalent(VersionOf(a.value), VersionOf(b.value)) ==> r == a)
  {
    if a.None? || a.value == "" { return b; }
    if b.None? || b.value == "" { return a; }
    var c := CompareSemver(n, a.value, b.value);
    r := if c >= 0 then a else b;
    if ReadsNumbers(n) && WellFormed(a.value) && WellFormed(b.value) && !PrereleasesDepart(n, a.value, b.value) {
      CompareFollowsPrecedence(n, a.value, b.value);
      NotBelowItself(VersionOf(a.value));
      NotBelowItself(VersionOf(b.value));
    }
    hide Compare, Precedes, Equivalent, WellFormed, PrereleasesDepart, ReadsNumbers;
  }

  lemma NotBelowItself(v: Version)
    ensures !Precedes(v, v)
  {
    if Precedes(v, v) { PrecedenceIsAsymmetric(v, v); }
  }

  // ----- Outside plain form it can be cyclic, or see no difference

  lemma {:induction false} BeforeJoined(a: string, b: string, stop: char -> bool)
    requires (forall i | 0 <= i < |a| :: !stop(a[i])) && (b == "" || stop(b[0]))
    ensures Before(a + b, stop) == a
  {
    if a == "" {
      assert a + b == b;
    } else {
      assert (a + b)[1..] == a[1..] + b;
      BeforeJoined(a[1..], b, stop);
    }
  }

  lemma {:induction false} NoDots(s: string)
    requires '.' !in s
    ensures SplitDots(s) == [s]
  {
    if s != "" {
      NoDots(s[1..]);
      assert [s[0]] + s[1..] == s;
    }
  }

  /** What a prerelease with a single identifier parses to. */
  lemma OneIdentifierParses(core: string, z: string)
    requires '-' !in core && '.' !in z
    ensures Parse(core + "-" + z) == Parsed(SplitDots(core), Some([z]))
  {
    assert core + "-" + z == core + ("-" + z);
    BeforeJoined(core, "-" + z, c => c == '-');
    assert (core + "-" + z)[|core| + 1..] == z;
    NoDots(z);
  }

  /** A release with one prerelease identifier. */
  ghost predicate OneIdentifier(core: string, z: string)
  {
    '-' !in core && '.' !in z && forall c | c in SplitDots(core) :: PlainNumber(c)
  }

  lemma OneIdentifierVersion(core: string, z: string)
    requires OneIdentifier(core, z)
    ensures Parse(core + "-" + z) == Parsed(SplitDots(core), Some([z])) && WellFormed(core + "-" + z)
    ensures VersionOf(core + "-" + z) == Version(CoreOf(SplitDots(core)), Some([IdentifierOf(z)]))
  {
    OneIdentifierParses(core, z);
    assert IdentifiersOf([z]) == [IdentifierOf(z)];
  }

  /** Two prereleases of one release depart exactly when their identifiers are inverted or tied. */
  lemma OnePairDeparts(n: ToNumber, core: string, x: string, y: string)
    requires OneIdentifier(core, x) && OneIdentifier(core, y) && IdentifierOf(x) != IdentifierOf(y)
    ensures PrereleasesDepart(n, core + "-" + x, core + "-" + y) <==> Tied(n, x, y) || Inverted(n, x, y)
  {
    OneIdentifierVersion(core, x);
    OneIdentifierVersion(core, y);
    hide Parse, WellFormed, OneIdentifier, Inverted;
    OnlyHere(n, [x], [y], 0);
    assert Tied(n, x, y) ==> forall j: nat | j > 0 :: !Decides(n, [x], [y], j);
  }

  lemma SinglesPrecede(a: Version, b: Version, x: Identifier, y: Identifier)
    requires a.core == b.core && a.pre == Some([x]) && b.pre == Some([y]) && IdentifierPrecedes(x, y)
    ensures Precedes(a, b)
  {
    assert DiffersAt([x], [y], 0);
  }

  /** The comparison of two prereleases with one identifier each, from the theorem above. */
  lemma OneIdentifierEach(n: ToNumber, core: string, x: string, y: string)
    requires ReadsNumbers(n) && OneIdentifier(core, x) && OneIdentifier(core, y)
    requires IdentifierOf(x) != IdentifierOf(y) && !Tied(n, x, y) && Below(n, x, y)
    ensures PrereleasesDepart(n, core + "-" + x, core + "-" + y) <==> Inverted(n, x, y)
    ensures Compare(n, core + "-" + x, core + "-" + y) == -1
  {
    OneIdentifierVersion(core, x);
    OneIdentifierVersion(core, y);
    OnePairDeparts(n, core, x, y);
    hide Parse, OneIdentifier, Inverted, PrereleasesDepart, VersionOf, Tied;
    SameCoreCompares(n, SplitDots(core), 0);
    ComparesAsOne(n, core, x, y);
  }

  lemma ComparesAsOne(n: ToNumber, core: string, x: string, y: string)
    requires OneIdentifier(core, x) && OneIdentifier(core, y)
    ensures Compare(n, core + "-" + x, core + "-" + y) ==
            if !Apart(n, x, y) then 0 else if Below(n, x, y) then -1 else 1
  {
    OneIdentifierVersion(core, x);
    OneIdentifierVersion(core, y);
    SameCoreCompares(n, SplitDots(core), 0);
    LessIsTotal(x, y);
    assert CompareIdentifiers(n, [x], [y], 1) == 0;
    hide Parse, WellFormed, VersionOf, CompareCore;
  }

  lemma {:induction false} SameCoreCompares(n: ToNumber, core: seq<string>, i: nat)
    ensures CompareCore(n, core, core, i) == 0
    decreases |core| - i
  {
    if i < |core| { SameCoreCompares(n, core, i + 1); }
  }

  /** Identifiers that begin with a digit and go on with letters make the comparison cyclic, for
      every release: `1a` and `2` are an inverted pair, the other two pairs are not. */
  lemma CompareCanBeCyclic(n: ToNumber, core: string)
    requires ReadsNumbers(n) && n("1a").None?
    requires '-' !in core && forall c | c in SplitDots(core) :: PlainNumber(c)
    ensures Compare(n, core + "-" + "10", core + "-" + "1a") == -1
    ensures Compare(n, core + "-" + "1a", core + "-" + "2") == -1
    ensures Compare(n, core + "-" + "2", core + "-" + "10") == -1
    ensures PrereleasesDepart(n, core + "-" + "1a", core + "-" + "2")
  {
    TwoTenOneA(n);
    assert OneIdentifier(core, "10") && OneIdentifier(core, "1a") && OneIdentifier(core, "2");
    hide *;
    OneIdentifierEach(n, core, "10", "1a");
    OneIdentifierEach(n, core, "1a", "2");
    OneIdentifierEach(n, core, "2", "10");
  }

  lemma TwoTenOneA(n: ToNumber)
    requires ReadsNumbers(n) && n("1a").None?
    ensures '.' !in "2" && '.' !in "10" && '.' !in "1a"
    ensures IdentifierOf("2") == Numeric(2) && IdentifierOf("10") == Numeric(10) && IdentifierOf("1a") == Word("1a")
    ensures IdentifierOf("10") != IdentifierOf("1a") && IdentifierOf("1a") != IdentifierOf("2")
            && IdentifierOf("2") != IdentifierOf("10")
    ensures !Tied(n, "10", "1a") && !Tied(n, "1a", "2") && !Tied(n, "2", "10")
    ensures Below(n, "10", "1a") && Below(n, "1a", "2") && Below(n, "2", "10")
    ensures !Inverted(n, "10", "1a") && Inverted(n, "1a", "2") && !Inverted(n, "2", "10")
  {
    assert "10"[..1] == "1" && "1"[..0] == "" && "2"[..0] == "" && DigitsValue("1") == 1;
    assert DigitsValue("10") == 10 && DigitsValue("2") == 2;
    assert ReadsExactly(n, "10") && ReadsExactly(n, "2");
    assert "10"[1..] == "0" && "1a"[1..] == "a" && !Digit("1a"[1]);
    LessIsTotal("10", "1a");
  }

  /** Different identifiers that read as one number are not told apart: for every release, `1`
      precedes `1e0`, and the comparison finds them equal. */
  lemma CompareCanTie(n: ToNumber, core: string)
    requires ReadsNumbers(n) && n("1e0") == Some(1.0)
    requires '-' !in core && forall c | c in SplitDots(core) :: PlainNumber(c)
    ensures Compare(n, core + "-" + "1", core + "-" + "1e0") == 0
    ensures Precedes(VersionOf(core + "-" + "1"), VersionOf(core + "-" + "1e0"))
    ensures PrereleasesDepart(n, core + "-" + "1", core + "-" + "1e0")
  {
    assert "1"[..0] == "" && DigitsValue("1") == 1 && ReadsExactly(n, "1") && !Digit("1e0"[1]);
    assert OneIdentifier(core, "1") && OneIdentifier(core, "1e0") && Tied(n, "1", "1e0");
    OneIdentifierVersion(core, "1");
    OneIdentifierVersion(core, "1e0");
    SinglesPrecede(VersionOf(core + "-" + "1"), VersionOf(core + "-" + "1e0"), Numeric(1), Word("1e0"));
    hide *;
    OnePairDeparts(n, core, "1", "1e0");
    ComparesAsOne(n, core, "1", "1e0");
  }
}
