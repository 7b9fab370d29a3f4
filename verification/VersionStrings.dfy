/** How version strings are taken apart, told as what they are put together from: the parser of
    src/update-check.ts, the stripping of src/resource-loader.ts, and the releases of
    src/coordination-maintenance-backend.ts. */
module VersionStrings {
  import opened Wrappers
  import opened Versions
  import opened ManagedFence

  // ----- Dots and dashes

  function Join(parts: seq<string>): string
    requires parts != []
  {
    if |parts| == 1 then parts[0] else parts[0] + "." + Join(parts[1..])
  }

  lemma {:induction false} SplitJoins(s: string)
    ensures Join(SplitDots(s)) == s && forall part | part in SplitDots(s) :: '.' !in part
  {
    if s != "" {
      SplitJoins(s[1..]);
      var r := SplitDots(s[1..]);
      assert s == [s[0]] + s[1..];
      if s[0] == '.' {
        assert ([""] + r)[1..] == r;
      } else {
        assert SplitDots(s)[1..] == r[1..];
        if |r| > 1 { assert [s[0]] + (r[0] + "." + Join(r[1..])) == ([s[0]] + r[0]) + "." + Join(r[1..]); }
      }
    }
  }

  lemma {:induction false} JoinSplits(parts: seq<string>)
    requires parts != [] && forall part | part in parts :: '.' !in part
    ensures SplitDots(Join(parts)) == parts
    decreases |parts|
  {
    if |parts| == 1 {
      NoDots(parts[0]);
    } else {
      assert forall part | part in parts[1..] :: part in parts;
      JoinSplits(parts[1..]);
      HeadSplits(parts[0], Join(parts[1..]));
    }
  }

  lemma {:induction false} NoDots(s: string)
    requires '.' !in s
    ensures SplitDots(s) == [s]
  {
    if s != "" {
      NoDots(s[1..]);
      assert s == [s[0]] + s[1..];
    }
  }

  lemma {:induction false} HeadSplits(head: string, tail: string)
    requires '.' !in head
    ensures SplitDots(head + "." + tail) == [head] + SplitDots(tail)
  {
    var all := head + "." + tail;
    if head == "" {
      assert all == ['.'] + tail && all[1..] == tail;
    } else {
      HeadSplits(head[1..], tail);
      assert all[1..] == head[1..] + "." + tail && head == [head[0]] + head[1..];
      assert ([head[1..]] + SplitDots(tail))[1..] == SplitDots(tail);
    }
  }

  predicate NoDotIn(parts: seq<string>)
  {
    forall part | part in parts :: '.' !in part
  }

  /** The text of a version with these components and identifiers. */
  function Text(core: seq<string>, pre: Option<seq<string>>): string
    requires core != [] && (pre.Some? ==> pre.value != [])
  {
    Join(core) + if pre.Some? then "-" + Join(pre.value) else ""
  }

  /** A version is its components, joined by dots, and after the first dash its identifiers. */
  lemma ParsedFrom(v: string, core: seq<string>, pre: Option<seq<string>>)
    requires core != [] && (pre.Some? ==> pre.value != [])
    ensures Parse(v) == Parsed(core, pre) <==>
            v == Text(core, pre) && '-' !in Join(core) && NoDotIn(core) && (pre.Some? ==> NoDotIn(pre.value))
  {
    hide Parse, Join, NoDotIn;
    ParseJoins(v);
    if v == Text(core, pre) && '-' !in Join(core) && NoDotIn(core) && (pre.Some? ==> NoDotIn(pre.value)) {
      JoinParses(core, pre);
    }
  }

  lemma ParseJoins(v: string)
    ensures var p := Parse(v);
            v == Text(p.core, p.pre) && '-' !in Join(p.core) && NoDotIn(p.core)
            && (p.pre.Some? ==> NoDotIn(p.pre.value))
  {
    hide SplitDots, Join;
    var core := Before(v, c => c == '-');
    hide Before;
    SplitJoins(core);
    if |core| == |v| {
      assert core == v;
    } else {
      SplitJoins(v[|core| + 1..]);
      assert v == core + ("-" + v[|core| + 1..]);
    }
  }

  lemma JoinParses(core: seq<string>, pre: Option<seq<string>>)
    requires core != [] && (pre.Some? ==> pre.value != [])
    requires '-' !in Join(core) && NoDotIn(core) && (pre.Some? ==> NoDotIn(pre.value))
    ensures Parse(Text(core, pre)) == Parsed(core, pre)
  {
    hide SplitDots, Join, Before;
    var v := Text(core, pre);
    assert pre.None? ==> v == Join(core);
    BeforeIs(v, Join(core), c => c == '-');
    JoinSplits(core);
    if pre.Some? {
      JoinSplits(pre.value);
      assert v[|Join(core)| + 1..] == Join(pre.value);
    }
  }

  lemma {:induction false} BeforeIs(s: string, head: string, stop: char -> bool)
    requires head <= s && (forall c | c in head :: !stop(c)) && (|head| < |s| ==> stop(s[|head|]))
    ensures Before(s, stop) == head
  {
    if head != "" {
      BeforeIs(s[1..], head[1..], stop);
      assert head == [head[0]] + head[1..] && s[0] == head[0];
    }
  }

  /** Digits are read as decimal places. */
  lemma DigitsAreDecimal(s: string, k: nat)
    requires k < 10
    ensures DigitsValue("") == 0 && DigitsValue(s + ["0123456789"[k]]) == 10 * DigitsValue(s) + k
    ensures forall c :: Digit(c) <==> exists j :: 0 <= j < 10 && "0123456789"[j] == c
  {
    var d := "0123456789"[k];
    assert (s + [d])[..|s|] == s;
    forall c | Digit(c) ensures exists j :: 0 <= j < 10 && "0123456789"[j] == c {
      assert "0123456789"[c as int - '0' as int] == c;
    }
  }

  // ----- Releases

  /** A release: an optional v, three numbers with dots between, and a suffix on one line. */
  ghost predicate IsReleaseOf(value: string, a: string, b: string, c: string)
  {
    DigitString(a) && DigitString(b) && DigitString(c)
    && exists v, suffix ::
         value == v + (a + "." + b + "." + c) + suffix && OptionalV(v) && Suffix(suffix) && OneLine(suffix)
  }

  predicate OptionalV(v: string) { v == "" || v == "v" }

  predicate Suffix(s: string) { s == "" || s[0] == '+' || s[0] == '-' }

  predicate OneLine(s: string)
  {
    '\n' !in s && '\r' !in s && '\U{2028}' !in s && '\U{2029}' !in s
  }

  lemma WithoutVIs(t: string) returns (v: string)
    ensures t == v + WithoutV(t) && OptionalV(v) && (v == "" ==> t == "" || t[0] != 'v')
  {
    v := t[..|t| - |WithoutV(t)|];
  }

  lemma WithoutVOf(v: string, digits: string, rest: string)
    requires OptionalV(v) && digits != "" && digits[0] != 'v'
    ensures WithoutV(v + digits + rest) == digits + rest
  {
  }

  lemma HeadAndSuffix(w: string) returns (core: string, rest: string)
    ensures w == core + rest && core == Before(w, EndsRelease) && rest == w[|core|..]
    ensures '+' !in core && '-' !in core && Suffix(rest)
  {
    core := Before(w, EndsRelease);
    rest := w[|core|..];
    forall c | c in core ensures c != '+' && c != '-' {
      var i :| 0 <= i < |core| && core[i] == c;
      assert !EndsRelease(core[i]);
    }
  }

  lemma ReleaseIsOf(value: string, a: string, b: string, c: string)
    ensures IsReleaseOf(value, a, b, c) <==> IsRelease(value) && SplitDots(ReleasePart(value)) == [a, b, c]
  {
    if IsReleaseOf(value, a, b, c) { OfRelease(value, a, b, c); }
    if IsRelease(value) && SplitDots(ReleasePart(value)) == [a, b, c] { ReleaseOf(value, a, b, c); }
    hide IsReleaseOf, IsRelease;
  }

  lemma ThreeJoined(a: string, b: string, c: string)
    ensures Join([a, b, c]) == a + "." + b + "." + c
  {
    assert [a, b, c][1..] == [b, c] && [b, c][1..] == [c];
    assert Join([c]) == c && Join([b, c]) == b + "." + c;
    assert a + "." + (b + "." + c) == a + "." + b + "." + c;
  }

  lemma OfRelease(value: string, a: string, b: string, c: string)
    requires IsReleaseOf(value, a, b, c)
    ensures IsRelease(value) && SplitDots(ReleasePart(value)) == [a, b, c]
  {
    hide SplitDots, Before, DigitsValue;
    var part := a + "." + b + "." + c;
    var v, suffix :| value == v + part + suffix && OptionalV(v) && Suffix(suffix) && OneLine(suffix);
    WithoutVOf(v, part, suffix);
    DigitsDoNotEnd(a, b, c);
    BeforeIs(part + suffix, part, EndsRelease);
    ThreeJoined(a, b, c);
    DigitsHaveNoDots(a, b, c);
    JoinSplits([a, b, c]);
    LinesOf(part, suffix);
  }

  lemma DigitsDoNotEnd(a: string, b: string, c: string)
    requires DigitString(a) && DigitString(b) && DigitString(c)
    ensures forall d | d in a + "." + b + "." + c :: !EndsRelease(d)
  {
  }

  lemma DigitsHaveNoDots(a: string, b: string, c: string)
    requires DigitString(a) && DigitString(b) && DigitString(c)
    ensures forall part | part in [a, b, c] :: '.' !in part
  {
  }

  lemma LinesOf(part: string, suffix: string)
    ensures OneLine(suffix) <==>
            forall i | |part| <= i < |part + suffix| :: !LineBreak((part + suffix)[i])
  {
    var all := part + suffix;
    assert forall i | |part| <= i < |all| :: all[i] == suffix[i - |part|];
    assert forall i | 0 <= i < |suffix| :: suffix[i] == all[|part| + i];
  }

  lemma ReleaseOf(value: string, a: string, b: string, c: string)
    requires IsRelease(value) && SplitDots(ReleasePart(value)) == [a, b, c]
    ensures IsReleaseOf(value, a, b, c)
  {
    hide SplitDots, Before, WithoutV;
    var v := WithoutVIs(value);
    var part, suffix := HeadAndSuffix(WithoutV(value));
    SplitJoins(part);
    ThreeJoined(a, b, c);
    LinesOf(part, suffix);
    assert value == v + part + suffix;
  }

  function Triple(a: string, b: string, c: string): (nat, nat, nat)
  {
    (DigitsValue(a), DigitsValue(b), DigitsValue(c))
  }

  predicate Above(x: (nat, nat, nat), y: (nat, nat, nat))
  {
    x.0 > y.0 || (x.0 == y.0 && (x.1 > y.1 || (x.1 == y.1 && x.2 > y.2)))
  }

  /** Where Number is exact, a higher release is one whose three numbers are above the other's. */
  lemma HigherByNumbers(n: ToNumber, managed: string, current: string, a: string, b: string, c: string,
                        d: string, e: string, f: string)
    requires IsReleaseOf(managed, a, b, c) && IsReleaseOf(current, d, e, f)
    requires ReadsNumbers(n) && forall s | s in [a, b, c, d, e, f] :: PlainNumber(s)
    ensures IsRelease(managed) && IsRelease(current)
    ensures HigherRelease(n, managed, current) <==> Above(Triple(a, b, c), Triple(d, e, f))
  {
    ReleaseIsOf(managed, a, b, c);
    ReleaseIsOf(current, d, e, f);
    hide IsReleaseOf, IsRelease, PlainNumber;
    forall s | s in [a, b, c, d, e, f] ensures Reads(n, s) { assert ReadsExactly(n, s); }
    hide Reads, ReadsNumbers;
    HigherOfThree(n, [a, b, c], [d, e, f]);
  }

  predicate Reads(n: ToNumber, s: string)
  {
    n(s) == Some(DigitsValue(s) as real)
  }

  lemma ExceedsByValue(n: ToNumber, x: string, y: string)
    requires Reads(n, x) && Reads(n, y)
    ensures Exceeds(n, x, y) <==> DigitsValue(x) > DigitsValue(y)
  {
    hide DigitsValue;
  }

  lemma HigherOfThree(n: ToNumber, a: seq<string>, b: seq<string>)
    requires |a| == |b| == 3 && forall i | 0 <= i < 3 :: Reads(n, a[i]) && Reads(n, b[i])
    ensures (exists i: nat :: i < 3 && ExceedsAt(n, a, b, i)) <==>
            Above(Triple(a[0], a[1], a[2]), Triple(b[0], b[1], b[2]))
  {
    hide DigitsValue, Reads, Exceeds;
    forall i | 0 <= i < 3
      ensures Exceeds(n, a[i], b[i]) <==> DigitsValue(a[i]) > DigitsValue(b[i])
      ensures Exceeds(n, b[i], a[i]) <==> DigitsValue(b[i]) > DigitsValue(a[i])
    {
      ExceedsByValue(n, a[i], b[i]);
      ExceedsByValue(n, b[i], a[i]);
    }
    OneOfThree(n, a, b);
  }

  lemma OneOfThree(n: ToNumber, a: seq<string>, b: seq<string>)
    requires |a| == |b| == 3
    ensures (exists i: nat :: i < 3 && ExceedsAt(n, a, b, i)) <==>
            ExceedsAt(n, a, b, 0) || ExceedsAt(n, a, b, 1) || ExceedsAt(n, a, b, 2)
  {
    hide ExceedsAt;
  }

  // ----- Stripping

  predicate AllSpace(s: string, space: char -> bool)
  {
    forall c | c in s :: space(c)
  }

  /** The blanks around a version. */
  ghost predicate IsTrimmed(version: string, lead: string, text: string, trail: string, space: char -> bool)
  {
    version == lead + text + trail && AllSpace(lead, space) && AllSpace(trail, space)
    && (text != "" ==> !space(text[0]) && !space(text[|text| - 1]))
  }

  lemma {:induction false} TrimStartIs(s: string, space: char -> bool) returns (lead: string)
    ensures s == lead + TrimStart(s, space) && AllSpace(lead, space)
    ensures TrimStart(s, space) != "" ==> !space(TrimStart(s, space)[0])
  {
    lead := "";
    if s != "" && space(s[0]) {
      lead := TrimStartIs(s[1..], space);
      lead := [s[0]] + lead;
      assert s == [s[0]] + s[1..];
    }
  }

  lemma {:induction false} TrimEndIs(s: string, space: char -> bool) returns (trail: string)
    ensures s == TrimEnd(s, space) + trail && AllSpace(trail, space)
    ensures var t := TrimEnd(s, space); t != "" ==> !space(t[|t| - 1]) && t[0] == s[0]
  {
    trail := "";
    if s != "" && space(s[|s| - 1]) {
      trail := TrimEndIs(s[..|s| - 1], space);
      trail := trail + [s[|s| - 1]];
      assert s == s[..|s| - 1] + [s[|s| - 1]];
    }
  }

  /** What is left of any version string: without blanks around it, without one v at its head, what
      stands before the first plus or minus; and 0.0.0 if that is nothing. */
  lemma StripLeaves(version: string, space: char -> bool) returns (lead: string, v: string, core: string, rest: string,
                                                                   trail: string)
    ensures IsTrimmed(version, lead, v + core + rest, trail, space)
    ensures OptionalV(v) && (v == "" ==> core + rest == "" || (core + rest)[0] != 'v')
    ensures '+' !in core && '-' !in core && Suffix(rest)
    ensures StripBuildMetadata(version, space) == if core == "" then "0.0.0" else core
  {
    hide AllSpace, TrimStart, TrimEnd, Before;
    lead := TrimStartIs(version, space);
    var s := TrimStart(version, space);
    trail := TrimEndIs(s, space);
    var t := TrimEnd(s, space);
    hide WithoutV;
    v := WithoutVIs(t);
    core, rest := HeadAndSuffix(WithoutV(t));
    assert v == "" ==> t == core + rest;
    assert t == v + core + rest;
    assert version == lead + (v + core + rest) + trail;
  }
}
