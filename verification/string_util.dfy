/**
 * The handful of Go standard-library string routines that the modelled code leans on:
 * strings.Split / bytes.Split with a one-element separator, strings.Join,
 * strings.TrimSpace, strconv.Itoa / strconv.Atoi and sort.Strings.
 */
module StringUtil {
  import opened Wrappers

  // ---------------------------------------------------------------- Split / Join

  /** Go's Split with a one-element separator: every separator starts a new part. */
  function Split<T(==)>(s: seq<T>, sep: T): (parts: seq<seq<T>>)
    ensures |parts| >= 1
    ensures forall i :: 0 <= i < |parts| ==> sep !in parts[i]
  {
    if |s| == 0 then [[]]
    else if s[0] == sep then [[]] + Split(s[1..], sep)
    else
      var rest := Split(s[1..], sep);
      [[s[0]] + rest[0]] + rest[1..]
  }

  /** Go's Join: the parts with `sep` between neighbours and nowhere else. */
  function Join<T>(parts: seq<seq<T>>, sep: seq<T>): seq<T>
  {
    if |parts| == 0 then []
    else if |parts| == 1 then parts[0]
    else parts[0] + sep + Join(parts[1..], sep)
  }

  /** One more part lands after one more separator at the end of the joined text. */
  lemma {:induction false} JoinSnoc<T>(parts: seq<seq<T>>, last: seq<T>, sep: seq<T>)
    requires |parts| > 0
    ensures Join(parts + [last], sep) == Join(parts, sep) + sep + last
  {
    if |parts| == 1 {
      assert parts + [last] == [parts[0], last];
      assert [parts[0], last][1..] == [last];
    } else {
      JoinSnoc(parts[1..], last, sep);
      assert (parts + [last])[1..] == parts[1..] + [last];
    }
  }

  /** Joining the parts of a split gives back the input. */
  lemma {:induction false} JoinSplit<T>(s: seq<T>, sep: T)
    ensures Join(Split(s, sep), [sep]) == s
  {
    if |s| == 0 {
    } else if s[0] == sep {
      JoinSplit(s[1..], sep);
      var rest := Split(s[1..], sep);
      assert Split(s, sep) == [[]] + rest;
      assert s == [] + [sep] + s[1..];
    } else {
      JoinSplit(s[1..], sep);
      var rest := Split(s[1..], sep);
      if |rest| == 1 {
        assert s == [s[0]] + s[1..];
      } else {
        assert Join(rest, [sep]) == rest[0] + [sep] + Join(rest[1..], [sep]);
        assert Split(s, sep)[1..] == rest[1..];
        assert s == [s[0]] + s[1..];
      }
    }
  }

  lemma {:induction false} SplitNoSep<T>(a: seq<T>, sep: T)
    requires sep !in a
    ensures Split(a, sep) == [a]
  {
    if |a| > 0 {
      SplitNoSep(a[1..], sep);
      assert [a[0]] + a[1..] == a;
    }
  }

  lemma {:induction false} SplitAfterPart<T>(a: seq<T>, b: seq<T>, sep: T)
    requires sep !in a
    ensures Split(a + [sep] + b, sep) == [a] + Split(b, sep)
  {
    if |a| == 0 {
      assert a + [sep] + b == [sep] + b;
      assert ([sep] + b)[1..] == b;
    } else {
      SplitAfterPart(a[1..], b, sep);
      assert (a + [sep] + b)[1..] == a[1..] + [sep] + b;
      assert [a[0]] + a[1..] == a;
    }
  }

  /** Splitting a join of separator-free parts gives back the parts. */
  lemma {:induction false} SplitJoin<T>(parts: seq<seq<T>>, sep: T)
    requires |parts| >= 1
    requires forall i :: 0 <= i < |parts| ==> sep !in parts[i]
    ensures Split(Join(parts, [sep]), sep) == parts
  {
    if |parts| == 1 {
      SplitNoSep(parts[0], sep);
    } else {
      SplitJoin(parts[1..], sep);
      SplitAfterPart(parts[0], Join(parts[1..], [sep]), sep);
      assert [parts[0]] + parts[1..] == parts;
    }
  }

  /** Go's strings.SplitN(s, sep, 2): the part before the first separator and the rest, if any. */
  function SplitFirst<T(==)>(s: seq<T>, sep: T): (r: Option<(seq<T>, seq<T>)>)
    ensures r.None? <==> sep !in s
    ensures r.Some? ==> sep !in r.value.0 && s == r.value.0 + [sep] + r.value.1
  {
    if |s| == 0 then None
    else if s[0] == sep then Some(([], s[1..]))
    else
      match SplitFirst(s[1..], sep)
      case None => None
      case Some(p) => Some(([s[0]] + p.0, p.1))
  }

  // ---------------------------------------------------------------- TrimSpace

  /** Go's unicode.IsSpace: ASCII white space, NEL, NBSP and the Unicode space separators. */
  predicate IsSpace(c: char)
  {
    c == ' ' || c == '\t' || c == '\n' || c == '\r' || c == '\U{000B}' || c == '\U{000C}'
    || c == '\U{0085}' || c == '\U{00A0}' || c == '\U{1680}'
    || ('\U{2000}' <= c <= '\U{200A}')
    || c == '\U{2028}' || c == '\U{2029}' || c == '\U{202F}' || c == '\U{205F}' || c == '\U{3000}'
  }

  /** Drops the longest all-space prefix. */
  function TrimLeft(s: string): (r: string)
    ensures |r| <= |s| && r == s[|s| - |r|..]
    ensures forall i :: 0 <= i < |s| - |r| ==> IsSpace(s[i])
    ensures r != [] ==> !IsSpace(r[0])
  {
    if |s| > 0 && IsSpace(s[0]) then
      var r := TrimLeft(s[1..]);
      assert s[1..][|s| - 1 - |r|..] == s[|s| - |r|..];
      assert forall i :: 1 <= i < |s| ==> s[i] == s[1..][i - 1];
      r
    else s
  }

  /** Drops the longest all-space suffix. */
  function TrimRight(s: string): (r: string)
    ensures |r| <= |s| && r == s[..|r|]
    ensures forall i :: |r| <= i < |s| ==> IsSpace(s[i])
    ensures r != [] ==> !IsSpace(r[|r| - 1])
  {
    if |s| > 0 && IsSpace(s[|s| - 1]) then
      var r := TrimRight(s[..|s| - 1]);
      assert s[..|s| - 1][..|r|] == s[..|r|];
      assert forall i :: 0 <= i < |s| - 1 ==> s[i] == s[..|s| - 1][i];
      r
    else s
  }

  /** Go's strings.TrimSpace. */
  function TrimSpace(s: string): string
  {
    TrimRight(TrimLeft(s))
  }

  /**
   * TrimSpace returns a contiguous piece of its input that neither starts nor ends with
   * white space, and is empty exactly when the input is all white space.
   */
  lemma TrimSpaceSpec(s: string)
    ensures var r := TrimSpace(s);
            (r != [] ==> !IsSpace(r[0]) && !IsSpace(r[|r| - 1])) &&
            (exists k :: 0 <= k <= |s| - |r| && r == s[k..][..|r|]) &&
            (r == [] <==> forall i :: 0 <= i < |s| ==> IsSpace(s[i]))
  {
    TrimSpaceEnds(s);
    TrimSpaceSlice(s);
    TrimSpaceEmpty(s);
  }

  lemma TrimSpaceEnds(s: string)
    ensures var r := TrimSpace(s);
            r != [] ==> !IsSpace(r[0]) && !IsSpace(r[|r| - 1])
  {
    var l := TrimLeft(s);
    var r := TrimRight(l);
    if r != [] {
      assert r[0] == l[0];
    }
  }

  lemma TrimSpaceSlice(s: string)
    ensures var r := TrimSpace(s);
            exists k :: 0 <= k <= |s| - |r| && r == s[k..][..|r|]
  {
    var l := TrimLeft(s);
    var r := TrimRight(l);
    var k := |s| - |l|;
    assert r == l[..|r|] && l == s[k..];
    assert 0 <= k <= |s| - |r| && r == s[k..][..|r|];
  }

  lemma TrimSpaceEmpty(s: string)
    ensures TrimSpace(s) == [] <==> forall i :: 0 <= i < |s| ==> IsSpace(s[i])
  {
    AllSpaceTrimmedAway(s);
    AllSpaceTrimmedAway(TrimLeft(s));
  }

  /** A string trims to nothing on the left, or on the right, exactly when it is all white space. */
  lemma AllSpaceTrimmedAway(s: string)
    ensures TrimLeft(s) == [] <==> forall i :: 0 <= i < |s| ==> IsSpace(s[i])
    ensures TrimRight(s) == [] <==> forall i :: 0 <= i < |s| ==> IsSpace(s[i])
  {
    if TrimLeft(s) != [] {
      assert !IsSpace(s[|s| - |TrimLeft(s)|]);
    }
    if TrimRight(s) != [] {
      assert !IsSpace(s[|TrimRight(s)| - 1]);
    }
  }

  // ---------------------------------------------------------------- integers

  const MaxInt64: int := 0x7fff_ffff_ffff_ffff
  const MinInt64: int := -0x8000_0000_0000_0000

  predicate IsDigit(c: char) { '0' <= c <= '9' }

  function DigitValue(c: char): nat
    requires IsDigit(c)
  {
    c as int - '0' as int
  }

  /** The value of a run of decimal digits, most significant first. */
  function DecimalValue(d: string): nat
    requires forall i :: 0 <= i < |d| ==> IsDigit(d[i])
  {
    if |d| == 0 then 0 else DecimalValue(d[..|d| - 1]) * 10 + DigitValue(d[|d| - 1])
  }

  /** strconv.Itoa for a non-negative value: its shortest decimal form. */
  function Itoa(n: nat): (s: string)
    ensures |s| >= 1
    ensures forall i :: 0 <= i < |s| ==> IsDigit(s[i])
    ensures |s| > 1 ==> s[0] != '0'
  {
    if n < 10 then [('0' as int + n) as char]
    else Itoa(n / 10) + [('0' as int + n % 10) as char]
  }

  lemma {:induction false} ItoaValue(n: nat)
    ensures DecimalValue(Itoa(n)) == n
  {
    if n >= 10 {
      ItoaValue(n / 10);
      var s := Itoa(n);
      assert s[..|s| - 1] == Itoa(n / 10);
    }
  }

  /**
   * strconv.Atoi on a 64-bit platform: an optional sign, then one or more ASCII digits,
   * and a value that fits in int64; anything else is an error.
   */
  function Atoi(s: string): (r: Result<int>)
    ensures r.Ok? ==> MinInt64 <= r.value <= MaxInt64
    ensures s == [] ==> r.Err?
  {
    if |s| == 0 then Err("invalid syntax")
    else
      var neg := s[0] == '-';
      var digits := if s[0] == '-' || s[0] == '+' then s[1..] else s;
      if |digits| == 0 || exists i :: 0 <= i < |digits| && !IsDigit(digits[i]) then Err("invalid syntax")
      else
        var v: int := if neg then -(DecimalValue(digits) as int) else DecimalValue(digits);
        if v < MinInt64 || v > MaxInt64 then Err("value out of range") else Ok(v)
  }

  /** Atoi reads back what Itoa writes. */
  lemma AtoiItoa(n: nat)
    requires n <= MaxInt64
    ensures Atoi(Itoa(n)) == Ok(n)
  {
    ItoaValue(n);
  }

  // ---------------------------------------------------------------- sort.Strings

  /** Byte-wise (here code-point-wise) lexicographic order, as Go compares strings. */
  predicate Less(a: string, b: string)
  {
    if |a| == 0 then |b| > 0
    else if |b| == 0 then false
    else if a[0] == b[0] then Less(a[1..], b[1..])
    else a[0] < b[0]
  }

  lemma {:induction false} LessIrreflexive(a: string)
    ensures !Less(a, a)
  {
    if |a| > 0 { LessIrreflexive(a[1..]); }
  }

  lemma {:induction false} LessTransitive(a: string, b: string, c: string)
    requires Less(a, b) && Less(b, c)
    ensures Less(a, c)
  {
    if |a| > 0 && |b| > 0 && |c| > 0 && a[0] == b[0] && b[0] == c[0] {
      LessTransitive(a[1..], b[1..], c[1..]);
    }
  }

  lemma {:induction false} LessTotal(a: string, b: string)
    ensures a == b || Less(a, b) || Less(b, a)
  {
    if |a| > 0 && |b| > 0 && a[0] == b[0] {
      LessTotal(a[1..], b[1..]);
      if a[1..] == b[1..] {
        assert a == [a[0]] + a[1..] && b == [b[0]] + b[1..];
      }
    }
  }

  lemma LessAsymmetric(a: string, b: string)
    requires Less(a, b)
    ensures !Less(b, a)
  {
    if Less(b, a) {
      LessTransitive(a, b, a);
      LessIrreflexive(a);
    }
  }

  predicate LessEq(a: string, b: string) { a == b || Less(a, b) }

  predicate SortedStrings(xs: seq<string>)
  {
    forall i, j :: 0 <= i < j < |xs| ==> LessEq(xs[i], xs[j])
  }

  predicate StrictlySorted(xs: seq<string>)
  {
    forall i, j :: 0 <= i < j < |xs| ==> Less(xs[i], xs[j])
  }

  /** Every element of xs is at least y. */
  predicate AllAtLeast(y: string, xs: seq<string>)
  {
    forall k :: 0 <= k < |xs| ==> LessEq(y, xs[k])
  }

  function Insert(x: string, xs: seq<string>): seq<string>
  {
    if |xs| == 0 || LessEq(x, xs[0]) then [x] + xs
    else [xs[0]] + Insert(x, xs[1..])
  }

  lemma {:induction false} InsertLowerBound(y: string, x: string, xs: seq<string>)
    requires AllAtLeast(y, xs) && LessEq(y, x)
    ensures AllAtLeast(y, Insert(x, xs))
  {
    if |xs| > 0 && !LessEq(x, xs[0]) {
      InsertLowerBound(y, x, xs[1..]);
    }
  }

  lemma {:induction false} InsertSorted(x: string, xs: seq<string>)
    requires SortedStrings(xs)
    ensures SortedStrings(Insert(x, xs))
    ensures multiset(Insert(x, xs)) == multiset(xs) + multiset{x}
  {
    if |xs| == 0 {
    } else if LessEq(x, xs[0]) {
      forall j | 0 <= j < |xs| ensures LessEq(x, xs[j]) {
        if x != xs[0] && xs[0] != xs[j] { LessTransitive(x, xs[0], xs[j]); }
      }
    } else {
      InsertSorted(x, xs[1..]);
      LessTotal(x, xs[0]);
      InsertLowerBound(xs[0], x, xs[1..]);
      assert xs == [xs[0]] + xs[1..];
    }
  }

  /** sort.Strings: an ascending permutation of its input. */
  function Sort(xs: seq<string>): (r: seq<string>)
    ensures SortedStrings(r)
    ensures multiset(r) == multiset(xs)
  {
    if |xs| == 0 then []
    else
      assert xs == [xs[0]] + xs[1..];
      InsertSorted(xs[0], Sort(xs[1..]));
      Insert(xs[0], Sort(xs[1..]))
  }

  /** Two ascending sequences with the same elements are equal: a sort's result depends only on the multiset it sorts. */
  lemma {:induction false} SortedPermutationsEqual(x: seq<string>, y: seq<string>)
    requires SortedStrings(x) && SortedStrings(y)
    requires multiset(x) == multiset(y)
    ensures x == y
  {
    if |x| == 0 {
      assert |multiset(y)| == 0;
    } else {
      assert |y| > 0 by {
        assert x[0] in multiset(y);
      }
      var a, b := x[0], y[0];
      assert a == b by {
        assert b in multiset(x);
        var i :| 0 <= i < |x| && x[i] == b;
        assert LessEq(a, b) by {
          if i > 0 {
            assert LessEq(x[0], x[i]);
          }
        }
        assert a in multiset(y);
        var j :| 0 <= j < |y| && y[j] == a;
        assert LessEq(b, a) by {
          if j > 0 {
            assert LessEq(y[0], y[j]);
          }
        }
        if a != b {
          LessAsymmetric(a, b);
        }
      }
      assert multiset(x) == multiset{a} + multiset(x[1..]) by {
        assert x == [a] + x[1..];
      }
      assert multiset(y) == multiset{b} + multiset(y[1..]) by {
        assert y == [b] + y[1..];
      }
      assert multiset(x[1..]) == multiset(x) - multiset{a};
      assert multiset(y[1..]) == multiset(y) - multiset{b};
      SortedTail(x);
      SortedTail(y);
      SortedPermutationsEqual(x[1..], y[1..]);
    }
  }

  lemma SortedTail(x: seq<string>)
    requires |x| > 0 && SortedStrings(x)
    ensures SortedStrings(x[1..])
  {
    forall i, j | 0 <= i < j < |x| - 1
      ensures LessEq(x[1..][i], x[1..][j])
    {
      assert LessEq(x[i + 1], x[j + 1]);
    }
  }

  /** Sorting forgets the input order. */
  lemma SortOrderIndependent(xs: seq<string>, ys: seq<string>)
    requires multiset(xs) == multiset(ys)
    ensures Sort(xs) == Sort(ys)
  {
    SortedPermutationsEqual(Sort(xs), Sort(ys));
  }

  /** A sorted sequence without repetitions is strictly increasing. */
  lemma SortedDistinctIsStrict(xs: seq<string>)
    requires SortedStrings(xs)
    requires forall i, j :: 0 <= i < j < |xs| ==> xs[i] != xs[j]
    ensures StrictlySorted(xs)
  {
  }

  /** The first occurrence of every element, in order. */
  function Dedup(xs: seq<string>): (r: seq<string>)
    ensures forall x :: x in r <==> x in xs
    ensures forall i, j :: 0 <= i < j < |r| ==> r[i] != r[j]
  {
    if |xs| == 0 then []
    else
      var rest := Dedup(xs[..|xs| - 1]);
      var last := xs[|xs| - 1];
      assert xs == xs[..|xs| - 1] + [last];
      if last in rest then rest
      else
        rest + [last]
  }

  /** Removing repetitions from a sorted sequence keeps it sorted. */
  lemma {:induction false} DedupSorted(xs: seq<string>)
    requires SortedStrings(xs)
    ensures SortedStrings(Dedup(xs))
  {
    if |xs| > 0 {
      var init := xs[..|xs| - 1];
      var last := xs[|xs| - 1];
      DedupSorted(init);
      var rest := Dedup(init);
      forall k | 0 <= k < |rest| ensures LessEq(rest[k], last) {
        assert rest[k] in init;
        var q :| 0 <= q < |init| && init[q] == rest[k];
        assert xs[q] == rest[k];
      }
    }
  }

  /** The distinct elements of xs in ascending order: a sort followed by removal of repetitions. */
  function SortedUnique(xs: seq<string>): (r: seq<string>)
    ensures forall x :: x in r <==> x in xs
    ensures StrictlySorted(r)
  {
    var sorted := Sort(xs);
    DedupSorted(sorted);
    SortedDistinctIsStrict(Dedup(sorted));
    assert forall x :: x in sorted <==> x in multiset(sorted);
    Dedup(sorted)
  }
}
