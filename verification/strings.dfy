/**
 * String building blocks the bot uses for keys and hashes: decimal rendering of coordinates,
 * `Array.prototype.join`, `String.prototype.includes`, and the default (code-unit order)
 * `Array.prototype.sort` on strings.
 */
module Strings {

  predicate IsDigit(c: char) { '0' <= c <= '9' }

  function DigitChar(d: nat): (c: char)
    requires d < 10
    ensures IsDigit(c)
  {
    "0123456789"[d]
  }

  /** Decimal rendering of a natural number, as template literals print it. */
  function NatToString(n: nat): (s: string)
    ensures |s| > 0
    ensures forall i :: 0 <= i < |s| ==> IsDigit(s[i])
    decreases n
  {
    if n < 10 then [DigitChar(n)] else NatToString(n / 10) + [DigitChar(n % 10)]
  }

  /** `parts.join(sep)`. */
  function Join(parts: seq<string>, sep: string): string
  {
    if |parts| == 0 then "" else if |parts| == 1 then parts[0] else parts[0] + sep + Join(parts[1..], sep)
  }

  /** `s.includes(t)`: t occurs in s as a contiguous substring. */
  predicate Contains(s: string, t: string)
  {
    exists i :: 0 <= i <= |s| - |t| && OccursAt(s, t, i)
  }

  /** t occurs in s starting at index i. */
  predicate OccursAt(s: string, t: string, i: nat)
  {
    i + |t| <= |s| && s[i..i + |t|] == t
  }

  // ---------------------------------------------------------------------------------------------
  // Lexicographic order and sorting

  /** `a <= b` in the order JavaScript's default sort uses: by character code, a prefix first. */
  predicate LexLeq(a: string, b: string)
    decreases |a|
  {
    |a| == 0 || (|b| > 0 && (a[0] < b[0] || (a[0] == b[0] && LexLeq(a[1..], b[1..]))))
  }

  lemma {:induction false} LexTotal(a: string, b: string)
    ensures LexLeq(a, b) || LexLeq(b, a)
    decreases |a|
  {
    if |a| > 0 && |b| > 0 && a[0] == b[0] {
      LexTotal(a[1..], b[1..]);
    }
  }

  lemma {:induction false} LexAntisymmetric(a: string, b: string)
    requires LexLeq(a, b) && LexLeq(b, a)
    ensures a == b
    decreases |a|
  {
    if |a| > 0 {
      LexAntisymmetric(a[1..], b[1..]);
      assert a == [a[0]] + a[1..] && b == [b[0]] + b[1..];
    }
  }

  lemma {:induction false} LexTransitive(a: string, b: string, c: string)
    requires LexLeq(a, b) && LexLeq(b, c)
    ensures LexLeq(a, c)
    decreases |a|
  {
    if |a| > 0 && a[0] == b[0] && b[0] == c[0] {
      LexTransitive(a[1..], b[1..], c[1..]);
    }
  }

  predicate Sorted(s: seq<string>)
  {
    forall i, j :: 0 <= i < j < |s| ==> LexLeq(s[i], s[j])
  }

  function Insert(x: string, s: seq<string>): seq<string>
  {
    if |s| == 0 then [x] else if LexLeq(x, s[0]) then [x] + s else [s[0]] + Insert(x, s[1..])
  }

  /** Insertion sort: the value `strings.sort()` leaves behind. */
  function Sort(s: seq<string>): seq<string>
  {
    if |s| == 0 then [] else Insert(s[0], Sort(s[1..]))
  }

  lemma {:induction false} InsertMultiset(x: string, s: seq<string>)
    ensures multiset(Insert(x, s)) == multiset(s) + multiset{x}
  {
    if |s| > 0 && !LexLeq(x, s[0]) {
      InsertMultiset(x, s[1..]);
      assert s == [s[0]] + s[1..];
    }
  }

  lemma {:induction false} InsertSorted(x: string, s: seq<string>)
    requires Sorted(s)
    ensures Sorted(Insert(x, s))
  {
    if |s| == 0 {
    } else if LexLeq(x, s[0]) {
      var r := [x] + s;
      forall i, j | 0 <= i < j < |r| ensures LexLeq(r[i], r[j]) {
        if i == 0 && j > 1 { LexTransitive(x, s[0], s[j - 1]); }
      }
    } else {
      LexTotal(x, s[0]);
      InsertSorted(x, s[1..]);
      InsertMultiset(x, s[1..]);
      var t := Insert(x, s[1..]);
      var r := [s[0]] + t;
      forall j | 0 <= j < |t| ensures LexLeq(s[0], t[j]) {
        assert t[j] in multiset(t);
        assert t[j] == x || t[j] in multiset(s[1..]);
        if t[j] != x {
          var k :| 0 <= k < |s[1..]| && s[1..][k] == t[j];
          assert LexLeq(s[0], s[k + 1]);
        }
      }
      forall i, j | 0 <= i < j < |r| ensures LexLeq(r[i], r[j]) {
        if i > 0 { assert r[i] == t[i - 1] && r[j] == t[j - 1]; }
        else { assert r[j] == t[j - 1]; }
      }
    }
  }

  lemma {:induction false} SortSortedPermutation(s: seq<string>)
    ensures Sorted(Sort(s))
    ensures multiset(Sort(s)) == multiset(s)
  {
    if |s| > 0 {
      SortSortedPermutation(s[1..]);
      InsertSorted(s[0], Sort(s[1..]));
      InsertMultiset(s[0], Sort(s[1..]));
      assert s == [s[0]] + s[1..];
    }
  }

  lemma MultisetTail(s: seq<string>)
    requires |s| > 0
    ensures multiset(s[1..]) == multiset(s) - multiset{s[0]}
    ensures s[0] in multiset(s)
  {
    assert s == [s[0]] + s[1..];
  }

  lemma SortedHeadLeast(a: seq<string>, x: string)
    requires Sorted(a) && x in a
    ensures LexLeq(a[0], x)
  {
    var i :| 0 <= i < |a| && a[i] == x;
    if i == 0 { LexTotal(x, x); } else { assert LexLeq(a[0], a[i]); }
  }

  lemma SortedTail(a: seq<string>)
    requires Sorted(a) && |a| > 0
    ensures Sorted(a[1..])
  {
    forall i, j | 0 <= i < j < |a| - 1 ensures LexLeq(a[1..][i], a[1..][j]) {
      assert a[1..][i] == a[i + 1] && a[1..][j] == a[j + 1];
    }
  }

  /** Two sorted sequences with the same elements are the same sequence. */
  lemma {:induction false} SortedUnique(a: seq<string>, b: seq<string>)
    requires Sorted(a) && Sorted(b) && multiset(a) == multiset(b)
    ensures a == b
    decreases |a|
  {
    if |a| == 0 {
      assert |multiset(b)| == 0;
    } else {
      assert |b| > 0 by { assert |multiset(b)| == |multiset(a)| > 0; }
      MultisetTail(a);
      MultisetTail(b);
      SortedHeadLeast(b, a[0]);
      SortedHeadLeast(a, b[0]);
      LexAntisymmetric(a[0], b[0]);
      SortedTail(a);
      SortedTail(b);
      SortedUnique(a[1..], b[1..]);
      assert a == [a[0]] + a[1..] && b == [b[0]] + b[1..];
    }
  }

  /** Sorting forgets the order it was given: only the multiset of strings matters. */
  lemma SortOrderIndependent(s: seq<string>, t: seq<string>)
    requires multiset(s) == multiset(t)
    ensures Sort(s) == Sort(t)
  {
    SortSortedPermutation(s);
    SortSortedPermutation(t);
    SortedUnique(Sort(s), Sort(t));
  }

  // ---------------------------------------------------------------------------------------------
  // The shape of colons in a string

  /** Every ':' in s is immediately followed by a digit; in particular s never contains "::". */
  predicate ColonsBeforeDigits(s: string)
  {
    forall i :: 0 <= i < |s| && s[i] == ':' ==> i + 1 < |s| && IsDigit(s[i + 1])
  }

  lemma ColonsBeforeDigitsConcat(a: string, b: string)
    requires ColonsBeforeDigits(a) && ColonsBeforeDigits(b)
    ensures ColonsBeforeDigits(a + b)
  {
    var s := a + b;
    forall i | 0 <= i < |s| && s[i] == ':' ensures i + 1 < |s| && IsDigit(s[i + 1]) {
      if i < |a| { assert s[i] == a[i]; assert s[i + 1] == a[i + 1]; }
      else { assert s[i] == b[i - |a|]; assert s[i + 1] == b[i + 1 - |a|]; }
    }
  }

  lemma {:induction false} ColonsBeforeDigitsJoin(parts: seq<string>, sep: string)
    requires ColonsBeforeDigits(sep)
    requires forall i :: 0 <= i < |parts| ==> ColonsBeforeDigits(parts[i])
    ensures ColonsBeforeDigits(Join(parts, sep))
  {
    if |parts| > 1 {
      ColonsBeforeDigitsJoin(parts[1..], sep);
      ColonsBeforeDigitsConcat(parts[0], sep);
      ColonsBeforeDigitsConcat(parts[0] + sep, Join(parts[1..], sep));
    }
  }

  /** A string whose colons all precede digits is never of the form a + "::" + b. */
  lemma NoDoubleColon(s: string, a: string, b: string)
    requires ColonsBeforeDigits(s)
    ensures s != a + "::" + b
  {
    var t := a + "::" + b;
    assert t[|a|] == ':' && t[|a| + 1] == ':';
    assert !ColonsBeforeDigits(t);
  }

  /** Joining two or more parts with "::" leaves a "::" right after the first part. */
  lemma JoinDoubleColon(parts: seq<string>)
    requires |parts| >= 2
    ensures Join(parts, "::") == parts[0] + "::" + Join(parts[1..], "::")
  {
  }
}
