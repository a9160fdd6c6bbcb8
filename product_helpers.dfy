/** The module-level helpers of the catalogue page: product-code derivation (`slugify`, `today`,
    `autoCode`) and next-version suggestion (`nextVersionForCode`). */
module ProductHelpers {
  import opened Wrappers
  import opened Seqs
  import opened Text
  import opened Records

  // ---------------------------------------------------------------- slugify

  predicate IsSlugChar(c: char) { IsLowerAlnum(c) || c == '-' }

  /** Two hyphens never stand next to each other. */
  ghost predicate NoDoubleHyphen(s: string)
  {
    forall k :: 0 <= k < |s| - 1 ==> !(s[k] == '-' && s[k + 1] == '-')
  }

  /** The shape of a slug: only `a-z`, `0-9` and `-`, no `--`, no hyphen at either end. */
  ghost predicate IsSlug(s: string)
  {
    (forall k :: 0 <= k < |s| ==> IsSlugChar(s[k])) &&
    NoDoubleHyphen(s) &&
    (s == [] || (s[0] != '-' && s[|s| - 1] != '-'))
  }

  /** The letters and digits of `s`, in order: what a slug keeps of its input. */
  function AlnumOnly(s: string): string
  {
    Filter(s, (c: char) => IsLowerAlnum(c))
  }

  lemma AlnumOnlyAppend(a: string, b: string)
    ensures AlnumOnly(a + b) == AlnumOnly(a) + AlnumOnly(b)
  {
    FilterAppend(a, b, (c: char) => IsLowerAlnum(c));
  }

  /** Skips the rest of a run of characters outside `[a-z0-9]`. */
  function DropSeparators(t: string): (r: string)
    ensures r == [] || IsLowerAlnum(r[0])
    ensures |r| <= |t|
    ensures AlnumOnly(r) == AlnumOnly(t)
    decreases |t|
  {
    if t != [] && !IsLowerAlnum(t[0]) then
      AlnumOnlyAppend([t[0]], t[1..]);
      assert [t[0]] + t[1..] == t;
      DropSeparators(t[1..])
    else t
  }

  /** `.replace(/[^a-z0-9]+/g, "-")`: every maximal run of other characters becomes one hyphen. */
  function CollapseSeparators(t: string): (r: string)
    ensures forall k :: 0 <= k < |r| ==> IsSlugChar(r[k])
    ensures NoDoubleHyphen(r)
    ensures r == [] <==> t == []
    ensures r != [] ==> (r[0] == '-' <==> !IsLowerAlnum(t[0]))
    ensures AlnumOnly(r) == AlnumOnly(t)
    decreases |t|
  {
    if t == [] then []
    else if IsLowerAlnum(t[0]) then
      var rest := CollapseSeparators(t[1..]);
      AlnumOnlyAppend([t[0]], t[1..]);
      AlnumOnlyAppend([t[0]], rest);
      assert [t[0]] + t[1..] == t;
      [t[0]] + rest
    else
      var d := DropSeparators(t[1..]);
      var rest := CollapseSeparators(d);
      AlnumOnlyAppend([t[0]], t[1..]);
      AlnumOnlyAppend("-", rest);
      assert [t[0]] + t[1..] == t;
      "-" + rest
  }

  /** `.replace(/(^-|-$)/g, "")`: drops one hyphen at the start and one at the end. */
  function TrimHyphens(t: string): (r: string)
    requires forall k :: 0 <= k < |t| ==> IsSlugChar(t[k])
    requires NoDoubleHyphen(t)
    ensures IsSlug(r)
    ensures AlnumOnly(r) == AlnumOnly(t)
  {
    DropTrailingHyphen(DropLeadingHyphen(t))
  }

  /** The `^-` half of the replacement. */
  function DropLeadingHyphen(t: string): (a: string)
    requires forall k :: 0 <= k < |t| ==> IsSlugChar(t[k])
    requires NoDoubleHyphen(t)
    ensures forall k :: 0 <= k < |a| ==> IsSlugChar(a[k])
    ensures NoDoubleHyphen(a)
    ensures a == [] || a[0] != '-'
    ensures AlnumOnly(a) == AlnumOnly(t)
  {
    if |t| > 0 && t[0] == '-' then
      AlnumOnlyAppend([t[0]], t[1..]);
      assert [t[0]] + t[1..] == t;
      t[1..]
    else t
  }

  /** The `-$` half of the replacement. */
  function DropTrailingHyphen(a: string): (r: string)
    requires forall k :: 0 <= k < |a| ==> IsSlugChar(a[k])
    requires NoDoubleHyphen(a)
    requires a == [] || a[0] != '-'
    ensures IsSlug(r)
    ensures AlnumOnly(r) == AlnumOnly(a)
  {
    if |a| > 0 && a[|a| - 1] == '-' then
      var r := a[..|a| - 1];
      AlnumOnlyAppend(r, [a[|a| - 1]]);
      assert r + [a[|a| - 1]] == a;
      r
    else a
  }

  /** `slugify(s)` on input whose accents have already been stripped: the result is a slug and
      keeps exactly the letters and digits of the lower-cased input, in order. */
  function Slugify(s: string): (r: string)
    ensures IsSlug(r)
    ensures AlnumOnly(r) == AlnumOnly(Lower(s))
  {
    TrimHyphens(CollapseSeparators(Lower(s)))
  }

  /** A slug contains a letter or digit unless it is empty. */
  lemma {:induction false} SlugEmptyIff(s: string)
    ensures Slugify(s) == [] <==> AlnumOnly(Lower(s)) == []
  {
    var r := Slugify(s);
    if r != [] {
      assert IsLowerAlnum(r[0]);
      AlnumOnlyAppend([r[0]], r[1..]);
      assert [r[0]] + r[1..] == r;
    }
  }

  lemma {:induction false} CollapseSlug(t: string)
    requires forall k :: 0 <= k < |t| ==> IsSlugChar(t[k])
    requires NoDoubleHyphen(t)
    ensures CollapseSeparators(t) == t
    decreases |t|
  {
    if t != [] {
      CollapseSlug(t[1..]);
      if !IsLowerAlnum(t[0]) {
        assert DropSeparators(t[1..]) == t[1..];
      }
      assert [t[0]] + t[1..] == t;
    }
  }

  /** Every slug is its own slug: `slugify` changes nothing in text that already has the shape. */
  lemma SlugFixedPoint(t: string)
    requires IsSlug(t)
    ensures Slugify(t) == t
  {
    assert Lower(t) == t;
    CollapseSlug(t);
  }

  /** Slugifying twice is slugifying once. */
  lemma SlugifyIdempotent(s: string)
    ensures Slugify(Slugify(s)) == Slugify(s)
  {
    SlugFixedPoint(Slugify(s));
  }

  // ---------------------------------------------------------------- where the hyphens go

  /** Text made of slug characters with no two hyphens in a row. */
  ghost predicate SlugText(t: string)
  {
    (forall k :: 0 <= k < |t| ==> IsSlugChar(t[k])) && NoDoubleHyphen(t)
  }

  /** Skipping separators before text that ends in a letter or digit skips nothing after it. */
  lemma {:induction false} DropSeparatorsAppend(u: string, y: string)
    requires u != [] && IsLowerAlnum(u[|u| - 1])
    ensures DropSeparators(u + y) == DropSeparators(u) + y
    ensures DropSeparators(u) != [] && IsLowerAlnum(DropSeparators(u)[|DropSeparators(u)| - 1])
    decreases |u|
  {
    if !IsLowerAlnum(u[0]) {
      assert (u + y)[1..] == u[1..] + y;
      DropSeparatorsAppend(u[1..], y);
    }
  }

  /** Collapsing separators works piece by piece when the first piece ends in a letter or
      digit. */
  lemma {:induction false} CollapseAppend(x: string, y: string)
    requires x == [] || IsLowerAlnum(x[|x| - 1])
    ensures CollapseSeparators(x + y) == CollapseSeparators(x) + CollapseSeparators(y)
    decreases |x|, 1
  {
    if x == [] {
      assert x + y == y;
    } else if IsLowerAlnum(x[0]) {
      CollapseAppendAlnum(x, y);
    } else {
      CollapseAppendSeparator(x, y);
    }
  }

  lemma {:induction false} CollapseAppendAlnum(x: string, y: string)
    requires x != [] && IsLowerAlnum(x[0]) && IsLowerAlnum(x[|x| - 1])
    ensures CollapseSeparators(x + y) == CollapseSeparators(x) + CollapseSeparators(y)
    decreases |x|, 0
  {
    var xy := x + y;
    assert xy[0] == x[0] && xy[1..] == x[1..] + y;
    var r1, r2 := CollapseSeparators(x[1..]), CollapseSeparators(y);
    assert CollapseSeparators(xy) == [x[0]] + CollapseSeparators(x[1..] + y);
    CollapseAppend(x[1..], y);
    assert CollapseSeparators(x) == [x[0]] + r1;
    AppendAssoc([x[0]], r1, r2);
  }

  lemma {:induction false} CollapseAppendSeparator(x: string, y: string)
    requires x != [] && !IsLowerAlnum(x[0]) && IsLowerAlnum(x[|x| - 1])
    ensures CollapseSeparators(x + y) == CollapseSeparators(x) + CollapseSeparators(y)
    decreases |x|, 0
  {
    var u := x[1..];
    var xy := x + y;
    assert xy[0] == x[0] && xy[1..] == u + y;
    DropSeparatorsAppend(u, y);
    var d := DropSeparators(u);
    assert CollapseSeparators(xy) == "-" + CollapseSeparators(d + y);
    CollapseAppend(d, y);
    assert CollapseSeparators(x) == "-" + CollapseSeparators(d);
    AppendAssoc("-", CollapseSeparators(d), CollapseSeparators(y));
  }

  /** Text ending in a letter or digit collapses to text ending in one. */
  lemma {:induction false} CollapseEndsAlnum(x: string)
    requires x != [] && IsLowerAlnum(x[|x| - 1])
    ensures CollapseSeparators(x) != []
    ensures IsLowerAlnum(CollapseSeparators(x)[|CollapseSeparators(x)| - 1])
    decreases |x|
  {
    var c := CollapseSeparators(x);
    if IsLowerAlnum(x[0]) {
      var r := CollapseSeparators(x[1..]);
      assert c == [x[0]] + r;
      if |x| > 1 {
        CollapseEndsAlnum(x[1..]);
        assert c[|c| - 1] == r[|r| - 1];
      } else {
        assert r == [];
      }
    } else {
      var d := DropSeparators(x[1..]);
      var r := CollapseSeparators(d);
      assert c == "-" + r;
      DropSeparatorsAppend(x[1..], []);
      assert x[1..] + [] == x[1..];
      CollapseEndsAlnum(d);
      assert c[|c| - 1] == r[|r| - 1];
    }
  }

  /** Skipping a run of separators in front of a letter or digit (or of nothing) skips all of it. */
  lemma {:induction false} DropSeparatorRun(s: string, z: string)
    requires forall k :: 0 <= k < |s| ==> !IsLowerAlnum(s[k])
    requires z == [] || IsLowerAlnum(z[0])
    ensures DropSeparators(s + z) == z
    decreases |s|
  {
    if s == [] {
      assert s + z == z;
    } else {
      assert (s + z)[1..] == s[1..] + z;
      DropSeparatorRun(s[1..], z);
    }
  }

  /** A run of separators in front of a letter or digit (or of nothing) becomes one hyphen. */
  lemma CollapseSeparatorRun(s: string, z: string)
    requires s != [] && forall k :: 0 <= k < |s| ==> !IsLowerAlnum(s[k])
    requires z == [] || IsLowerAlnum(z[0])
    ensures CollapseSeparators(s + z) == "-" + CollapseSeparators(z)
  {
    var sz := s + z;
    assert sz[0] == s[0] && sz[1..] == s[1..] + z;
    DropSeparatorRun(s[1..], z);
    assert DropSeparators(sz[1..]) == z;
  }

  /** The index after the last letter or digit of `s`; 0 when it has none. */
  function LastAlnumEnd(s: string): (i: nat)
    ensures i <= |s| && (i == 0 || IsLowerAlnum(s[i - 1]))
    ensures forall k :: i <= k < |s| ==> !IsLowerAlnum(s[k])
    decreases |s|
  {
    if s == [] then 0
    else if IsLowerAlnum(s[|s| - 1]) then |s|
    else LastAlnumEnd(s[..|s| - 1])
  }

  /** The index of the first letter or digit of `s`; `|s|` when it has none. */
  function FirstAlnum(s: string): (j: nat)
    ensures j <= |s| && (j == |s| || IsLowerAlnum(s[j]))
    ensures forall k :: 0 <= k < j ==> !IsLowerAlnum(s[k])
    decreases |s|
  {
    if s == [] || IsLowerAlnum(s[0]) then 0 else 1 + FirstAlnum(s[1..])
  }

  /** Dropping a leading hyphen only looks at the first piece. */
  lemma DropLeadingConcat(p: string, z: string)
    requires p != [] && SlugText(p) && SlugText(p + z)
    ensures DropLeadingHyphen(p + z) == DropLeadingHyphen(p) + z
  {
    assert (p + z)[0] == p[0];
    assert (p + z)[1..] == p[1..] + z;
  }

  /** Dropping a trailing hyphen only looks at the last piece. */
  lemma DropTrailingConcat(p: string, z: string)
    requires p != [] && p[0] != '-' && z != [] && z[0] != '-'
    requires SlugText(z) && SlugText(p + z)
    ensures DropTrailingHyphen(p + z) == p + DropTrailingHyphen(z)
  {
    assert (p + z)[0] == p[0];
    assert (p + z)[|p + z| - 1] == z[|z| - 1];
    assert (p + z)[..|p + z| - 1] == p + z[..|z| - 1];
  }

  lemma SlugTextParts(p: string, z: string)
    requires SlugText(p + z)
    ensures SlugText(p) && SlugText(z)
  {
    assert forall k :: 0 <= k < |p| ==> p[k] == (p + z)[k];
    assert forall k :: 0 <= k < |z| ==> z[k] == (p + z)[|p| + k];
  }

  /** Trimming a hyphen between a letter or digit and a letter or digit keeps it. */
  lemma TrimAround(p: string, q: string)
    requires p != [] && IsLowerAlnum(p[|p| - 1]) && q != [] && IsLowerAlnum(q[0])
    requires SlugText(p) && SlugText(q) && SlugText(p + "-" + q)
    ensures TrimHyphens(p + "-" + q) == TrimHyphens(p) + "-" + TrimHyphens(q)
  {
    assert p + "-" + q == p + ("-" + q);
    SlugTextParts(p, "-" + q);
    DropLeadingConcat(p, "-" + q);
    var p' := DropLeadingHyphen(p);
    assert p' != [] && p'[|p'| - 1] == p[|p| - 1];
    assert p' + ("-" + q) == (p' + "-") + q;
    SlugTextParts(p', "-" + q);
    DropTrailingConcat(p' + "-", q);
  }

  /** A hyphen after the last letter or digit is trimmed away. */
  lemma TrimAfter(p: string)
    requires p != [] && IsLowerAlnum(p[|p| - 1]) && SlugText(p) && SlugText(p + "-")
    ensures TrimHyphens(p + "-") == TrimHyphens(p)
  {
    DropLeadingConcat(p, "-");
  }

  /** A hyphen before the first letter or digit is trimmed away. */
  lemma TrimBefore(q: string)
    requires q != [] && IsLowerAlnum(q[0]) && SlugText(q) && SlugText("-" + q)
    ensures TrimHyphens("-" + q) == TrimHyphens(q)
  {
    assert ("-" + q)[1..] == q;
  }

  /** No letter or digit in `s`. */
  predicate NoAlnum(s: string)
  {
    forall k :: 0 <= k < |s| ==> !IsLowerAlnum(s[k])
  }

  /** Trimming the collapse of text ending in a letter or digit ignores separators after it. */
  lemma TrimCollapseTrailing(A1: string, A2: string)
    requires A1 != [] && IsLowerAlnum(A1[|A1| - 1]) && NoAlnum(A2)
    ensures TrimHyphens(CollapseSeparators(A1 + A2)) == TrimHyphens(CollapseSeparators(A1))
  {
    var P := CollapseSeparators(A1);
    CollapseAppend(A1, A2);
    CollapseEndsAlnum(A1);
    assert SlugText(P);
    if A2 != [] {
      CollapseSeparatorRun(A2, []);
      AppendEmpty(A2);
      assert CollapseSeparators(A1 + A2) == P + "-";
      TrimAfter(P);
    } else {
      AppendEmpty(A1);
      AppendEmpty(P);
    }
  }

  /** Trimming the collapse of text starting with a letter or digit ignores separators before
      it. */
  lemma TrimCollapseLeading(B1: string, B2: string)
    requires NoAlnum(B1) && B2 != [] && IsLowerAlnum(B2[0])
    ensures TrimHyphens(CollapseSeparators(B1 + B2)) == TrimHyphens(CollapseSeparators(B2))
  {
    var Q := CollapseSeparators(B2);
    assert SlugText(Q);
    if B1 != [] {
      CollapseSeparatorRun(B1, B2);
      TrimBefore(Q);
    } else {
      assert B1 + B2 == B2;
    }
  }

  /** The separators between a part ending in a letter or digit and a part starting with one
      collapse into one hyphen, which trimming keeps. */
  lemma TrimCollapseJoin(A1: string, S: string, B2: string)
    requires A1 != [] && IsLowerAlnum(A1[|A1| - 1])
    requires S != [] && NoAlnum(S)
    requires B2 != [] && IsLowerAlnum(B2[0])
    ensures TrimHyphens(CollapseSeparators(A1 + (S + B2))) ==
      TrimHyphens(CollapseSeparators(A1)) + "-" + TrimHyphens(CollapseSeparators(B2))
  {
    var P, Q := CollapseSeparators(A1), CollapseSeparators(B2);
    CollapseAppend(A1, S + B2);
    CollapseSeparatorRun(S, B2);
    AppendAssoc(P, "-", Q);
    CollapseEndsAlnum(A1);
    assert SlugText(P) && SlugText(Q) && SlugText(P + "-" + Q);
    TrimAround(P, Q);
  }

  /** A run of separators, a separator and a run of separators make one run. */
  lemma NoAlnumJoin(A2: string, sep: char, B1: string)
    requires NoAlnum(A2) && !IsLowerAlnum(sep) && NoAlnum(B1)
    ensures NoAlnum(A2 + [sep] + B1)
  {
  }

  /** Text with a letter or digit splits into a part ending in its last one and the separators
      after it. */
  lemma SplitAfterLastAlnum(A: string) returns (A1: string, A2: string)
    requires AlnumOnly(A) != []
    ensures A == A1 + A2 && A1 != [] && IsLowerAlnum(A1[|A1| - 1]) && NoAlnum(A2)
  {
    var i := LastAlnumEnd(A);
    if i == 0 {
      FilterNone(A, (ch: char) => IsLowerAlnum(ch));
    }
    A1, A2 := A[..i], A[i..];
  }

  /** Text with a letter or digit splits into the separators before its first one and the rest. */
  lemma SplitBeforeFirstAlnum(B: string) returns (B1: string, B2: string)
    requires AlnumOnly(B) != []
    ensures B == B1 + B2 && NoAlnum(B1) && B2 != [] && IsLowerAlnum(B2[0])
  {
    var j := FirstAlnum(B);
    if j == |B| {
      FilterNone(B, (ch: char) => IsLowerAlnum(ch));
    }
    B1, B2 := B[..j], B[j..];
  }

  /** A separator between two parts that each hold a letter or digit becomes exactly one hyphen
      between their slugs: "a b" gives "a-b", "Hello,  World" gives "hello-world". */
  lemma SlugifyJoin(a: string, c: char, b: string)
    requires !IsLowerAlnum(LowerChar(c))
    requires AlnumOnly(Lower(a)) != [] && AlnumOnly(Lower(b)) != []
    ensures Slugify(a + [c] + b) == Slugify(a) + "-" + Slugify(b)
  {
    var A, B, sep := Lower(a), Lower(b), LowerChar(c);
    assert Lower(a + [c] + b) == A + [sep] + B;
    var A1, A2 := SplitAfterLastAlnum(A);
    var B1, B2 := SplitBeforeFirstAlnum(B);
    TrimCollapseTrailing(A1, A2);
    TrimCollapseLeading(B1, B2);
    NoAlnumJoin(A2, sep, B1);
    Regroup(A1, A2, [sep], B1, B2);
    TrimCollapseJoin(A1, A2 + [sep] + B1, B2);
  }

  /** Trimming text whose two pieces meet letter to letter trims each piece on its own side. */
  lemma TrimGlue(p: string, q: string)
    requires p != [] && IsLowerAlnum(p[|p| - 1]) && q != [] && IsLowerAlnum(q[0])
    requires SlugText(p) && SlugText(q) && SlugText(p + q)
    ensures TrimHyphens(p + q) == TrimHyphens(p) + TrimHyphens(q)
  {
    DropLeadingConcat(p, q);
    var p' := DropLeadingHyphen(p);
    assert p' != [] && p'[|p'| - 1] == p[|p| - 1];
    DropTrailingConcat(p', q);
  }

  /** Letters and digits that meet stay together: no hyphen is put where the input had no
      separator, so "ab" gives "ab" and "Hello" + "World" gives "helloworld". */
  lemma SlugifyGlue(a: string, b: string)
    requires Lower(a) != [] && IsLowerAlnum(Lower(a)[|Lower(a)| - 1])
    requires Lower(b) != [] && IsLowerAlnum(Lower(b)[0])
    ensures Slugify(a + b) == Slugify(a) + Slugify(b)
  {
    var A, B := Lower(a), Lower(b);
    assert Lower(a + b) == A + B;
    var P, Q := CollapseSeparators(A), CollapseSeparators(B);
    CollapseAppend(A, B);
    CollapseEndsAlnum(A);
    assert Q != [] && IsLowerAlnum(Q[0]);
    assert SlugText(P) && SlugText(Q) && SlugText(P + Q);
    TrimGlue(P, Q);
  }

  // ---------------------------------------------------------------- today / autoCode

  /** `today()` for the given day: `YYYYMMDD`, month and day zero-padded to two digits. */
  function DateStamp(d: Date): (r: string)
    ensures AllDigits(r)
    ensures d.month < 100 && d.day < 100 ==>
      |r| == |NatToString(d.year)| + 4 &&
      DigitsValue(r[..|r| - 4]) == d.year &&
      DigitsValue(r[|r| - 4..|r| - 2]) == d.month &&
      DigitsValue(r[|r| - 2..]) == d.day
    ensures 1000 <= d.year < 10000 && d.month < 100 && d.day < 100 ==> |r| == 8
  {
    var y := NatToString(d.year);
    var r := y + Pad2(d.month) + Pad2(d.day);
    DigitsValueOfNatToString(d.year);
    NatToStringLength(d.year);
    if d.month < 100 && d.day < 100 then
      ThreeParts(y, Pad2(d.month), Pad2(d.day));
      r
    else
    r
  }

  /** The prefix naming the kind of product in an automatic code. */
  function KindTag(kind: string): string
  {
    if kind == "3d" then "3D" else "ORD"
  }

  /** `autoCode({name, kind})` on the given day: `KIND_SLUG_YYYYMMDD`, upper-cased. The code
      splits on '_' into exactly the kind tag, the upper-cased slug of the name (of "produit"
      when the name is empty) and the date stamp, and holds no lower-case letter. */
  function AutoCode(name: string, kind: string, today: Date): (r: string)
    ensures Split(r, '_') ==
      [KindTag(kind), Upper(Slugify(if name == "" then "produit" else name)), DateStamp(today)]
    ensures forall k :: 0 <= k < |r| ==> !('a' <= r[k] <= 'z')
  {
    var base := Slugify(if name == "" then "produit" else name);
    var t := KindTag(kind);
    var stamp := DateStamp(today);
    AutoCodeFields(t, base, stamp);
    var r := Upper(t + "_" + base + "_" + stamp);
    assert Split(r, '_') == [t, Upper(base), stamp];
    r
  }

  lemma AutoCodeFields(t: string, base: string, stamp: string)
    requires t == "3D" || t == "ORD"
    requires IsSlug(base) && AllDigits(stamp)
    ensures Upper(t + "_" + base + "_" + stamp) == t + "_" + Upper(base) + "_" + stamp
    ensures Split(Upper(t + "_" + base + "_" + stamp), '_') == [t, Upper(base), stamp]
  {
    UpperFields(t, base, stamp, '_');
    UpperNoLetters(t);
    UpperNoLetters(stamp);
    assert '_' !in Upper(base) by {
      forall k | 0 <= k < |base| ensures Upper(base)[k] != '_' {
        assert IsSlugChar(base[k]);
      }
    }
    SplitFields(t, Upper(base), stamp, '_');
  }

  /** A name with no letter or digit leaves the middle field empty, e.g. "3D__20240105". */
  lemma AutoCodeEmptySlug(name: string, kind: string, today: Date)
    requires name != [] && AlnumOnly(Lower(name)) == []
    ensures AutoCode(name, kind, today) == KindTag(kind) + "__" + DateStamp(today)
  {
    var t, stamp := KindTag(kind), DateStamp(today);
    assert Slugify(name) == "" by {
      SlugEmptyIff(name);
    }
    assert AutoCode(name, kind, today) == Upper(t + "_" + "" + "_" + stamp);
    assert Upper(t + "_" + "" + "_" + stamp) == t + "_" + Upper("") + "_" + stamp by {
      AutoCodeFields(t, "", stamp);
    }
    assert Upper("") == "";
    assert "__" == "_" + "_";
    DropEmptyField(t, "_", Upper(""), stamp);
  }

  lemma DropEmptyField<T>(a: seq<T>, sep: seq<T>, e: seq<T>, c: seq<T>)
    requires e == []
    ensures a + sep + e + sep + c == a + (sep + sep) + c
  {
  }

  // ---------------------------------------------------------------- nextVersionForCode

  /** `/^V(\d+)$/i`: a 'V' or 'v' followed by one or more decimal digits. */
  predicate IsVersionLabel(v: string)
  {
    |v| >= 2 && (v[0] == 'V' || v[0] == 'v') && AllDigits(v[1..])
  }

  /** The number a version label stands for; 0 for a label that does not match. */
  function ParseVersion(v: string): nat
  {
    if IsVersionLabel(v) then DigitsValue(v[1..]) else 0
  }

  /** `p.code === code && typeof p.version === "string"`. */
  predicate HasVersionFor(p: Product, code: string)
  {
    p.code == code && p.version.Some?
  }

  /** The parsed versions of the items that share `code`, in list order. */
  function SameCodeVersions(items: seq<Product>, code: string): (vs: seq<nat>)
    ensures |vs| <= |items|
    decreases |items|
  {
    if items == [] then []
    else
      (if HasVersionFor(items[0], code) then [ParseVersion(items[0].version.value)] else []) +
      SameCodeVersions(items[1..], code)
  }

  /** Every same-code version is listed, and nothing else is. */
  lemma {:induction false} SameCodeVersionsSpec(items: seq<Product>, code: string)
    ensures forall k :: 0 <= k < |items| && HasVersionFor(items[k], code) ==>
      ParseVersion(items[k].version.value) in SameCodeVersions(items, code)
    ensures forall v :: v in SameCodeVersions(items, code) ==>
      (exists k :: 0 <= k < |items| && HasVersionFor(items[k], code) &&
        ParseVersion(items[k].version.value) == v)
    decreases |items|
  {
    if items != [] {
      SameCodeVersionsSpec(items[1..], code);
      assert forall k :: 1 <= k < |items| ==> items[k] == items[1..][k - 1];
    }
  }

  /** `vers.length ? Math.max(...vers) : 0`. */
  function MaxOrZero(vs: seq<nat>): (m: nat)
    ensures forall k :: 0 <= k < |vs| ==> vs[k] <= m
    ensures m == 0 || m in vs
    decreases |vs|
  {
    if vs == [] then 0
    else
      var m := MaxOrZero(vs[1..]);
      if vs[0] >= m then vs[0] else m
  }

  /** `nextVersionForCode(items, code)`: a well-formed label whose number exceeds the number of
      every same-code version and is one more than 0 or than one of them, i.e. max + 1. */
  function NextVersionForCode(items: seq<Product>, code: string): (r: string)
    ensures IsVersionLabel(r) && r[0] == 'V'
    ensures r == "V" + NatToString(ParseVersion(r))
    ensures forall k :: 0 <= k < |items| && HasVersionFor(items[k], code) ==>
      ParseVersion(items[k].version.value) < ParseVersion(r)
    ensures ParseVersion(r) == 1 ||
      (exists k :: 0 <= k < |items| && HasVersionFor(items[k], code) &&
        ParseVersion(items[k].version.value) == ParseVersion(r) - 1)
  {
    var vs := SameCodeVersions(items, code);
    SameCodeVersionsSpec(items, code);
    var n := MaxOrZero(vs) + 1;
    DigitsValueOfNatToString(n);
    var r := "V" + NatToString(n);
    assert r[1..] == NatToString(n);
    r
  }

  /** With no same-code item holding a string version, the suggestion is "V1". */
  lemma NextVersionDefault(items: seq<Product>, code: string)
    requires forall k :: 0 <= k < |items| ==> !HasVersionFor(items[k], code)
    ensures NextVersionForCode(items, code) == "V1"
  {
    SameCodeVersionsSpec(items, code);
  }

  /** Items of other codes play no part in the suggestion. */
  lemma {:induction false} NextVersionIgnoresOtherCodes(items: seq<Product>, code: string)
    ensures NextVersionForCode(items, code) ==
      NextVersionForCode(Filter(items, CodeIs(code)), code)
  {
    SameCodeVersionsFiltered(items, code);
  }

  /** The filter `p => p.code === code`. */
  function CodeIs(code: string): Product -> bool
  {
    (p: Product) => p.code == code
  }

  lemma {:induction false} SameCodeVersionsFiltered(items: seq<Product>, code: string)
    ensures SameCodeVersions(items, code) ==
      SameCodeVersions(Filter(items, CodeIs(code)), code)
    decreases |items|
  {
    if items != [] {
      SameCodeVersionsFiltered(items[1..], code);
      var f := Filter(items, CodeIs(code));
      if items[0].code == code {
        assert f == [items[0]] + Filter(items[1..], CodeIs(code));
        assert f[1..] == Filter(items[1..], CodeIs(code));
      } else {
        assert f == Filter(items[1..], CodeIs(code));
      }
    }
  }

  /** A product of the given code and version, every other column empty. */
  function VersionedProduct(code: string, version: string): (p: Product)
    ensures HasVersionFor(p, code)
  {
    Product("", "3d", "", code, Some(version), "", "", "", [], "", None, None, NoBuild, None, None,
            None, false)
  }

  /** With "X" at V2 and V5 and "Y" at V9, the next version of "X" is V6. */
  lemma NextVersionExample()
    ensures NextVersionForCode(
      [VersionedProduct("X", "V2"), VersionedProduct("X", "V5"), VersionedProduct("Y", "V9")], "X")
      == "V6"
  {
    var items := [VersionedProduct("X", "V2"), VersionedProduct("X", "V5"), VersionedProduct("Y", "V9")];
    assert ParseVersion("V2") == 2 by {
      assert "V2"[1..] == "2";
    }
    assert ParseVersion("V5") == 5 by {
      assert "V5"[1..] == "5";
    }
    assert SameCodeVersions(items, "X") == [2, 5] by {
      assert items[1..] == [items[1], items[2]];
      assert items[1..][1..] == [items[2]];
    }
    assert MaxOrZero([2, 5]) == 5 by {
      assert [2, 5][1..] == [5];
    }
  }
}
