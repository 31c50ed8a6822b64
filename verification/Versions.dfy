/** Version strings as internal/updater/updater.go reads and compares them. */
module Versions {
  import opened Basics

  datatype Triple = Triple(major: nat, minor: nat, patch: nat)

  /** The largest value strconv.Atoi accepts. */
  const MAX_INT: nat := 0x7FFF_FFFF_FFFF_FFFF

  predicate IsDigit(c: char) { '0' <= c <= '9' }

  // ---------- The leftmost match of \d+(?:\.\d+){0,2} ----------

  /** The end of the run of digits that starts at i. */
  function DigitsEnd(v: string, i: nat): (k: nat)
    requires i <= |v|
    ensures i <= k <= |v|
    decreases |v| - i
  {
    if i < |v| && IsDigit(v[i]) then DigitsEnd(v, i + 1) else i
  }

  /** The end of the match whose current group starts at i, when `more` groups may follow. */
  function MatchEnd(v: string, i: nat, more: nat): (k: nat)
    requires i <= |v|
    ensures i <= k <= |v|
    decreases more
  {
    var e := DigitsEnd(v, i);
    if more > 0 && e + 1 < |v| && v[e] == '.' && IsDigit(v[e + 1]) then MatchEnd(v, e + 1, more - 1) else e
  }

  /** The leftmost match from position i on, or "". */
  function FindFrom(v: string, i: nat): string
    requires i <= |v|
    decreases |v| - i
  {
    if i == |v| then "" else if IsDigit(v[i]) then v[i..MatchEnd(v, i, 2)] else FindFrom(v, i + 1)
  }

  function FindVersion(v: string): string { FindFrom(v, 0) }

  // ---------- Splitting and reading the match ----------

  function Split(s: string): (parts: seq<string>)
    ensures parts != []
  {
    if s == "" then [""]
    else if s[0] == '.' then [""] + Split(s[1..])
    else var rest := Split(s[1..]); [[s[0]] + rest[0]] + rest[1..]
  }

  function Value(s: string): nat {
    if s == "" then 0
    else Value(s[..|s| - 1]) * 10 + if IsDigit(s[|s| - 1]) then s[|s| - 1] as int - '0' as int else 0
  }

  predicate AllDigits(s: string) { s == "" || (IsDigit(s[0]) && AllDigits(s[1..])) }

  function Atoi(s: string): Option<nat> {
    if s == "" || !AllDigits(s) || Value(s) > MAX_INT then None else Some(Value(s))
  }

  /** Writes the parts from number i on over the slots of a slice that starts as zeros. */
  function Fill(parts: seq<string>, i: nat, slots: seq<nat>): Option<seq<nat>>
    requires |slots| == 3
    decreases 3 - i
  {
    if i >= |parts| || i >= 3 then Some(slots)
    else match Atoi(parts[i])
         case None => None
         case Some(n) => Fill(parts, i + 1, slots[i := n])
  }

  function Semver(v: string): Option<Triple> {
    if FindVersion(v) == "" then None
    else match Fill(Split(FindVersion(v)), 0, [0, 0, 0])
         case None => None
         case Some(s) => if |s| == 3 then Some(Triple(s[0], s[1], s[2])) else None
  }

  method ExtractSemver3(v: string) returns (triple: Option<Triple>)
    ensures triple == Semver(v)
  {
    var m := FindVersion(v);
    if m == "" { return None; }
    var parts, slots: seq<nat> := Split(m), [0, 0, 0];
    var i := 0;
    while i < |parts| && i < 3
      invariant 0 <= i <= 3 && |slots| == 3
      invariant Fill(parts, i, slots) == Fill(Split(m), 0, [0, 0, 0])
    {
      var n := Atoi(parts[i]);
      if n == None { return None; }
      slots := slots[i := n.value];
      i := i + 1;
    }
    triple := Some(Triple(slots[0], slots[1], slots[2]));
  }

  // ---------- Printed versions are read back ----------

  function Digit(d: nat): char
    requires d < 10
  {
    ('0' as int + d) as char
  }

  function Print(n: nat): (s: string)
    ensures s != "" && forall i | 0 <= i < |s| :: IsDigit(s[i])
  {
    if n < 10 then [Digit(n)] else Print(n / 10) + [Digit(n % 10)]
  }

  lemma {:induction false} ValueOfPrint(n: nat)
    ensures Value(Print(n)) == n
  {
    if n < 10 {
      assert Print(n)[..0] == "";
    } else {
      ValueOfPrint(n / 10);
      assert Print(n)[..|Print(n)| - 1] == Print(n / 10);
    }
  }

  lemma {:induction false} FindFromAt(v: string, i: nat, k: nat)
    requires i <= k < |v| && IsDigit(v[k]) && forall j | i <= j < k :: !IsDigit(v[j])
    ensures FindFrom(v, i) == v[k..MatchEnd(v, k, 2)]
    decreases k - i
  {
    if i < k { FindFromAt(v, i + 1, k); }
  }

  lemma {:induction false} DigitsEndAt(v: string, i: nat, k: nat)
    requires i <= k <= |v| && (k < |v| ==> !IsDigit(v[k])) && forall j | i <= j < k :: IsDigit(v[j])
    ensures DigitsEnd(v, i) == k
    decreases k - i
  {
    if i < k { DigitsEndAt(v, i + 1, k); }
  }

  lemma {:induction false} SplitPart(a: string)
    requires forall i | 0 <= i < |a| :: a[i] != '.'
    ensures Split(a) == [a]
  {
    if a != "" {
      SplitPart(a[1..]);
      assert [a[0]] + a[1..] == a;
    }
  }

  lemma {:induction false} SplitDotted(a: string, rest: string)
    requires forall i | 0 <= i < |a| :: a[i] != '.'
    ensures Split(a + "." + rest) == [a] + Split(rest)
  {
    var s := a + "." + rest;
    if a == "" {
      assert s[1..] == rest;
    } else {
      SplitDotted(a[1..], rest);
      assert s[1..] == a[1..] + "." + rest;
      assert [a[0]] + a[1..] == a;
    }
  }

  /** The usual printed form a.b.c. */
  function Dotted(t: Triple): string { Print(t.major) + "." + (Print(t.minor) + "." + Print(t.patch)) }

  predicate DigitsAt(v: string, i: nat, k: nat) {
    i < k <= |v| && forall j | i <= j < k :: IsDigit(v[j])
  }

  lemma MatchAt(v: string, p: nat, q: nat, r: nat, e: nat)
    requires p <= |v| && forall i | 0 <= i < p :: !IsDigit(v[i])
    requires DigitsAt(v, p, q) && q < |v| && v[q] == '.'
    requires DigitsAt(v, q + 1, r) && r < |v| && v[r] == '.'
    requires DigitsAt(v, r + 1, e) && (e < |v| ==> !IsDigit(v[e]))
    ensures FindVersion(v) == v[p..e]
  {
    FindFromAt(v, 0, p);
    DigitsEndAt(v, p, q);
    DigitsEndAt(v, q + 1, r);
    DigitsEndAt(v, r + 1, e);
    assert MatchEnd(v, r + 1, 0) == e;
    assert MatchEnd(v, q + 1, 1) == e;
  }

  lemma DigitsInside(pre: string, d: string, post: string)
    requires d != "" && forall i | 0 <= i < |d| :: IsDigit(d[i])
    ensures DigitsAt(pre + d + post, |pre|, |pre| + |d|)
  {
    var v := pre + d + post;
    forall j | |pre| <= j < |pre| + |d| ensures IsDigit(v[j]) { assert v[j] == d[j - |pre|]; }
  }

  lemma MatchOfDotted(pre: string, t: Triple, post: string)
    requires forall i | 0 <= i < |pre| :: !IsDigit(pre[i])
    requires post == "" || !IsDigit(post[0])
    ensures FindVersion(pre + Dotted(t) + post) == Dotted(t)
  {
    var a, b, c := Print(t.major), Print(t.minor), Print(t.patch);
    var v := pre + Dotted(t) + post;
    var p := |pre|;
    var q := p + |a|;
    var r := q + 1 + |b|;
    assert v == pre + a + ("." + (b + "." + c) + post);
    assert v == (pre + a + ".") + b + ("." + c + post);
    assert v == (pre + a + "." + b + ".") + c + post;
    DigitsInside(pre, a, "." + (b + "." + c) + post);
    DigitsInside(pre + a + ".", b, "." + c + post);
    DigitsInside(pre + a + "." + b + ".", c, post);
    MatchAt(v, p, q, r, r + 1 + |c|);
    assert v[p..r + 1 + |c|] == Dotted(t);
  }

  lemma {:induction false} DigitsAreAll(s: string)
    requires forall i | 0 <= i < |s| :: IsDigit(s[i])
    ensures AllDigits(s)
  {
    if s != "" { DigitsAreAll(s[1..]); }
  }

  lemma AtoiOfPrint(n: nat)
    ensures Atoi(Print(n)) == if n <= MAX_INT then Some(n) else None
  {
    ValueOfPrint(n);
    DigitsAreAll(Print(n));
  }

  lemma FillThree(x: string, y: string, z: string)
    ensures Fill([x, y, z], 0, [0, 0, 0])
         == if Atoi(x).Some? && Atoi(y).Some? && Atoi(z).Some?
            then Some([Atoi(x).value, Atoi(y).value, Atoi(z).value]) else None
  {
    var parts, slots: seq<nat> := [x, y, z], [0, 0, 0];
    if Atoi(x).Some? {
      var one := slots[0 := Atoi(x).value];
      assert Fill(parts, 0, slots) == Fill(parts, 1, one);
      if Atoi(y).Some? {
        var two := one[1 := Atoi(y).value];
        assert Fill(parts, 1, one) == Fill(parts, 2, two);
        if Atoi(z).Some? {
          var three := two[2 := Atoi(z).value];
          assert Fill(parts, 2, two) == Fill(parts, 3, three);
          assert three == [Atoi(x).value, Atoi(y).value, Atoi(z).value];
        }
      }
    }
  }

  lemma FillTwo(x: string, y: string)
    ensures Fill([x, y], 0, [0, 0, 0])
         == if Atoi(x).Some? && Atoi(y).Some? then Some([Atoi(x).value, Atoi(y).value, 0]) else None
  {
    var parts, slots: seq<nat> := [x, y], [0, 0, 0];
    if Atoi(x).Some? {
      var one := slots[0 := Atoi(x).value];
      assert Fill(parts, 0, slots) == Fill(parts, 1, one);
      if Atoi(y).Some? {
        var two := one[1 := Atoi(y).value];
        assert Fill(parts, 1, one) == Fill(parts, 2, two);
        assert two == [Atoi(x).value, Atoi(y).value, 0];
      }
    }
  }

  predicate Fits(t: Triple) { t.major <= MAX_INT && t.minor <= MAX_INT && t.patch <= MAX_INT }

  /** A printed version is read back from inside any text without digits before it, exactly when its
      numbers fit in 63 bits; what follows only must not begin with a digit. */
  lemma PrintedIsRead(pre: string, t: Triple, post: string)
    requires forall i | 0 <= i < |pre| :: !IsDigit(pre[i])
    requires post == "" || !IsDigit(post[0])
    ensures Semver(pre + Dotted(t) + post) == if Fits(t) then Some(t) else None
  {
    var a, b, c := Print(t.major), Print(t.minor), Print(t.patch);
    MatchOfDotted(pre, t, post);
    SplitDotted(a, b + "." + c);
    SplitDotted(b, c);
    SplitPart(c);
    assert [a] + ([b] + [c]) == [a, b, c];
    AtoiOfPrint(t.major);
    AtoiOfPrint(t.minor);
    AtoiOfPrint(t.patch);
    FillThree(a, b, c);
  }

  /** After the run of digits no further group follows. */
  predicate EndsGroups(post: string) {
    post == "" || (!IsDigit(post[0]) && !(post[0] == '.' && |post| > 1 && IsDigit(post[1])))
  }

  lemma MatchTwoAt(v: string, p: nat, q: nat, e: nat)
    requires p <= |v| && forall i | 0 <= i < p :: !IsDigit(v[i])
    requires DigitsAt(v, p, q) && q < |v| && v[q] == '.'
    requires DigitsAt(v, q + 1, e) && EndsGroups(v[e..])
    ensures FindVersion(v) == v[p..e]
  {
    FindFromAt(v, 0, p);
    DigitsEndAt(v, p, q);
    DigitsEndAt(v, q + 1, e);
    assert MatchEnd(v, q + 1, 1) == e;
  }

  lemma MatchOfTwo(pre: string, a: string, b: string, post: string)
    requires (forall i | 0 <= i < |pre| :: !IsDigit(pre[i])) && EndsGroups(post) && a != "" && b != ""
    requires (forall i | 0 <= i < |a| :: IsDigit(a[i])) && (forall i | 0 <= i < |b| :: IsDigit(b[i]))
    ensures FindVersion(pre + (a + "." + b) + post) == a + "." + b
  {
    var v := pre + (a + "." + b) + post;
    var p := |pre|;
    var q := p + |a|;
    var e := q + 1 + |b|;
    assert v == pre + a + ("." + b + post);
    assert v == (pre + a + ".") + b + post;
    DigitsInside(pre, a, "." + b + post);
    DigitsInside(pre + a + ".", b, post);
    assert v[e..] == post;
    MatchTwoAt(v, p, q, e);
    assert v[p..e] == a + "." + b;
  }

  /** A version printed as a.b is read with patch number zero. */
  lemma TwoNumbersAreRead(pre: string, major: nat, minor: nat, post: string)
    requires (forall i | 0 <= i < |pre| :: !IsDigit(pre[i])) && EndsGroups(post)
    ensures Semver(pre + (Print(major) + "." + Print(minor)) + post)
         == if Fits(Triple(major, minor, 0)) then Some(Triple(major, minor, 0)) else None
  {
    var a, b := Print(major), Print(minor);
    MatchOfTwo(pre, a, b, post);
    SplitDotted(a, b);
    SplitPart(b);
    assert [a] + [b] == [a, b];
    AtoiOfPrint(major);
    AtoiOfPrint(minor);
    FillTwo(a, b);
  }

  /** A single number is read with minor and patch number zero. */
  lemma OneNumberIsRead(pre: string, major: nat, post: string)
    requires (forall i | 0 <= i < |pre| :: !IsDigit(pre[i])) && EndsGroups(post)
    ensures Semver(pre + Print(major) + post)
         == if major <= MAX_INT then Some(Triple(major, 0, 0)) else None
  {
    var a := Print(major);
    var v := pre + a + post;
    var p := |pre|;
    var e := p + |a|;
    DigitsInside(pre, a, post);
    assert v[e..] == post;
    FindFromAt(v, 0, p);
    DigitsEndAt(v, p, e);
    assert MatchEnd(v, p, 2) == e;
    assert v[p..e] == a;
    SplitPart(a);
    AtoiOfPrint(major);
    if major <= MAX_INT {
      var slots: seq<nat> := [0, 0, 0];
      var one := slots[0 := major];
      assert Fill([a], 0, slots) == Fill([a], 1, one);
      assert one == [major, 0, 0];
    }
  }

  /** A text without digits has no version. */
  lemma {:induction false} NothingToRead(v: string, i: nat)
    requires i <= |v| && forall j | 0 <= j < |v| :: !IsDigit(v[j])
    ensures FindFrom(v, i) == "" && (i == 0 ==> Semver(v) == None)
    decreases |v| - i
  {
    if i < |v| { NothingToRead(v, i + 1); }
  }

  // ---------- Comparing ----------

  predicate Less(a: Triple, b: Triple) {
    if a.major != b.major then a.major < b.major
    else if a.minor != b.minor then a.minor < b.minor
    else a.patch < b.patch
  }

  predicate IsNewer(target: string, current: string) {
    var t, c := Semver(target), Semver(current);
    if t == None || c == None then target != "" && target != current else Less(c.value, t.value)
  }

  /** On readable versions "newer" is a strict weak order: two of them are incomparable exactly
      when they read as the same triple. */
  lemma NewerIsStrictWeakOrder(a: string, b: string, c: string)
    requires Semver(a).Some? && Semver(b).Some? && Semver(c).Some?
    ensures !IsNewer(a, a)
    ensures IsNewer(a, b) && IsNewer(b, c) ==> IsNewer(a, c)
    ensures IsNewer(a, c) ==> IsNewer(a, b) || IsNewer(b, c)
    ensures !IsNewer(a, b) && !IsNewer(b, a) <==> Semver(a) == Semver(b)
  {}

  /** Inside any surrounding text the numbers decide: the major number, then the minor, then the
      patch number, as long as they can be read. */
  lemma NewerByNumbers(pre: string, t: Triple, post: string, pre': string, c: Triple, post': string)
    requires (forall i | 0 <= i < |pre| :: !IsDigit(pre[i])) && (forall i | 0 <= i < |pre'| :: !IsDigit(pre'[i]))
    requires (post == "" || !IsDigit(post[0])) && (post' == "" || !IsDigit(post'[0]))
    ensures var target, current := pre + Dotted(t) + post, pre' + Dotted(c) + post';
            IsNewer(target, current) <==>
              if Fits(t) && Fits(c)
              then t.major > c.major || (t.major == c.major && t.minor > c.minor)
                   || (t.major == c.major && t.minor == c.minor && t.patch > c.patch)
              else target != current
  {
    PrintedIsRead(pre, t, post);
    PrintedIsRead(pre', c, post');
  }

  /** Two versions are each newer than the other exactly when they differ, neither is empty and
      one of them is not readable. */
  lemma NewerBothWays(a: string, b: string)
    ensures IsNewer(a, b) && IsNewer(b, a)
            <==> a != b && a != "" && b != "" && (Semver(a) == None || Semver(b) == None)
  {}

  /** It does happen: of two names without a number each is newer than the other. */
  lemma UnreadableBothWays()
    ensures IsNewer("a", "b") && IsNewer("b", "a")
  {
    NothingToRead("a", 0);
    NothingToRead("b", 0);
  }
}
