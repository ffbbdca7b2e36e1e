/** `order_by("-name")`: tags and ingredients by name, descending. Names
    compare code point by code point, a proper prefix first; the order of
    rows with equal names is not specified by the query, and the sort below
    fixes one. */
module NameOrder {
  import opened CoreModels
  import opened Rows

  /** `a <= b` in lexicographic order. */
  predicate LexLe(a: string, b: string) {
    a == [] || (b != [] && (a[0] < b[0] || (a[0] == b[0] && LexLe(a[1..], b[1..]))))
  }

  lemma {:induction false} LexLeTotal(a: string, b: string)
    ensures LexLe(a, b) || LexLe(b, a)
  {
    if a != [] && b != [] && a[0] == b[0] {
      LexLeTotal(a[1..], b[1..]);
    }
  }

  lemma {:induction false} LexLeTransitive(a: string, b: string, c: string)
    requires LexLe(a, b) && LexLe(b, c)
    ensures LexLe(a, c)
  {
    if a != [] && a[0] == b[0] && b[0] == c[0] {
      LexLeTransitive(a[1..], b[1..], c[1..]);
    }
  }

  lemma {:induction false} LexLeAntisymmetric(a: string, b: string)
    requires LexLe(a, b) && LexLe(b, a)
    ensures a == b
  {
    if a != [] {
      LexLeAntisymmetric(a[1..], b[1..]);
      assert a == [a[0]] + a[1..] && b == [b[0]] + b[1..];
    }
  }

  /** No row is followed by a row with a greater name. */
  predicate SortedByNameDesc(s: seq<Attr>) {
    forall i, j :: 0 <= i < j < |s| ==> LexLe(s[j].name, s[i].name)
  }

  /** Puts `x` before the first row whose name is not greater than its own. */
  function InsertByName(x: Attr, s: seq<Attr>): seq<Attr> {
    if s == [] || LexLe(s[0].name, x.name) then [x] + s
    else [s[0]] + InsertByName(x, s[1..])
  }

  /** Insertion sort by name, descending. */
  function SortByNameDesc(s: seq<Attr>): seq<Attr> {
    if s == [] then [] else InsertByName(s[0], SortByNameDesc(s[1..]))
  }

  lemma {:induction false} InsertPermutes(x: Attr, s: seq<Attr>)
    ensures multiset(InsertByName(x, s)) == multiset(s) + multiset{x}
  {
    if s != [] && !LexLe(s[0].name, x.name) {
      InsertPermutes(x, s[1..]);
      assert s == [s[0]] + s[1..];
    }
  }

  /** Every row of `s` has a name not greater than `bound`. */
  predicate AllBelow(s: seq<Attr>, bound: string) {
    forall k :: 0 <= k < |s| ==> LexLe(s[k].name, bound)
  }

  lemma SortedTail(s: seq<Attr>)
    requires s != [] && SortedByNameDesc(s)
    ensures SortedByNameDesc(s[1..]) && AllBelow(s[1..], s[0].name)
  {
    forall i, j | 0 <= i < j < |s| - 1 ensures LexLe(s[1..][j].name, s[1..][i].name) {
      assert s[1..][i] == s[i + 1] && s[1..][j] == s[j + 1];
    }
    forall k | 0 <= k < |s| - 1 ensures LexLe(s[1..][k].name, s[0].name) {
      assert s[1..][k] == s[k + 1];
    }
  }

  lemma SortedCons(y: Attr, t: seq<Attr>)
    requires SortedByNameDesc(t) && AllBelow(t, y.name)
    ensures SortedByNameDesc([y] + t)
  {
    var r := [y] + t;
    forall i, j | 0 <= i < j < |r| ensures LexLe(r[j].name, r[i].name) {
      assert r[j] == t[j - 1];
      if i > 0 {
        assert r[i] == t[i - 1];
      }
    }
  }

  lemma {:induction false} InsertBelow(x: Attr, s: seq<Attr>, bound: string)
    requires AllBelow(s, bound) && LexLe(x.name, bound)
    ensures AllBelow(InsertByName(x, s), bound)
  {
    if s != [] && !LexLe(s[0].name, x.name) {
      assert AllBelow(s[1..], bound) by {
        forall k | 0 <= k < |s| - 1 ensures LexLe(s[1..][k].name, bound) {
          assert s[1..][k] == s[k + 1];
        }
      }
      InsertBelow(x, s[1..], bound);
      var r := InsertByName(x, s);
      forall k | 0 <= k < |r| ensures LexLe(r[k].name, bound) {
        if k > 0 {
          assert r[k] == InsertByName(x, s[1..])[k - 1];
        }
      }
    }
  }

  lemma {:induction false} InsertSorted(x: Attr, s: seq<Attr>)
    requires SortedByNameDesc(s)
    ensures SortedByNameDesc(InsertByName(x, s))
  {
    if s == [] {
      SortedCons(x, s);
    } else if LexLe(s[0].name, x.name) {
      SortedTail(s);
      forall k | 0 <= k < |s| ensures LexLe(s[k].name, x.name) {
        if k > 0 {
          assert s[k] == s[1..][k - 1];
          LexLeTransitive(s[k].name, s[0].name, x.name);
        }
      }
      SortedCons(x, s);
    } else {
      SortedTail(s);
      InsertSorted(x, s[1..]);
      LexLeTotal(s[0].name, x.name);
      InsertBelow(x, s[1..], s[0].name);
      SortedCons(s[0], InsertByName(x, s[1..]));
    }
  }

  lemma {:induction false} InsertNoDup(x: Attr, s: seq<Attr>)
    requires x !in s && NoDup(s)
    ensures NoDup(InsertByName(x, s))
  {
    if s == [] || LexLe(s[0].name, x.name) {
      NoDupCons(x, s);
    } else {
      NoDupTail(s);
      InsertNoDup(x, s[1..]);
      InsertPermutes(x, s[1..]);
      assert s[0] !in multiset(InsertByName(x, s[1..]));
      NoDupCons(s[0], InsertByName(x, s[1..]));
    }
  }

  lemma {:induction false} SortSorted(s: seq<Attr>)
    ensures SortedByNameDesc(SortByNameDesc(s))
  {
    if s != [] {
      SortSorted(s[1..]);
      InsertSorted(s[0], SortByNameDesc(s[1..]));
    }
  }

  lemma {:induction false} SortPermutes(s: seq<Attr>)
    ensures multiset(SortByNameDesc(s)) == multiset(s)
  {
    if s != [] {
      SortPermutes(s[1..]);
      InsertPermutes(s[0], SortByNameDesc(s[1..]));
      assert s == [s[0]] + s[1..];
    }
  }

  lemma {:induction false} SortNoDup(s: seq<Attr>)
    requires NoDup(s)
    ensures NoDup(SortByNameDesc(s))
  {
    if s != [] {
      NoDupTail(s);
      SortNoDup(s[1..]);
      SortPermutes(s[1..]);
      assert s[0] !in multiset(SortByNameDesc(s[1..]));
      InsertNoDup(s[0], SortByNameDesc(s[1..]));
    }
  }

  /** The sort returns its input rearranged, by name, descending, and
      keeps a duplicate-free input free of duplicates. */
  lemma SortByNameDescCorrect(s: seq<Attr>)
    ensures SortedByNameDesc(SortByNameDesc(s))
    ensures multiset(SortByNameDesc(s)) == multiset(s)
    ensures NoDup(s) ==> NoDup(SortByNameDesc(s))
  {
    SortSorted(s);
    SortPermutes(s);
    if NoDup(s) {
      SortNoDup(s);
    }
  }
}
