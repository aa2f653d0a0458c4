/** The order of strings by their characters, which for UTF-8 text is also the order by bytes. */
module StringOrder {

  /** Lexicographic order. */
  predicate Less(a: string, b: string) {
    b != "" && (a == "" || a[0] < b[0] || (a[0] == b[0] && Less(a[1..], b[1..])))
  }

  lemma {:induction false} LessTransitive(a: string, b: string, c: string)
    requires Less(a, b) && Less(b, c)
    ensures Less(a, c)
  {
    if a != "" && a[0] == b[0] == c[0] {
      LessTransitive(a[1..], b[1..], c[1..]);
    }
  }

  lemma {:induction false} LessIrreflexive(a: string)
    ensures !Less(a, a)
  {
    if a != "" {
      LessIrreflexive(a[1..]);
    }
  }

  lemma {:induction false} LessTotal(a: string, b: string)
    ensures Less(a, b) || a == b || Less(b, a)
  {
    if a != "" && b != "" && a[0] == b[0] {
      LessTotal(a[1..], b[1..]);
      assert a == [a[0]] + a[1..] && b == [b[0]] + b[1..];
    }
  }

  // ---- sorted sets -------------------------------------------------------------------------------

  predicate StrictlySorted(s: seq<string>) {
    forall i, j :: 0 <= i < j < |s| ==> Less(s[i], s[j])
  }

  /** Put a key where it belongs, unless it is there. */
  function Insert(s: seq<string>, k: string): (r: seq<string>) {
    if s == [] then [k]
    else if s[0] == k then s
    else if Less(k, s[0]) then [k] + s
    else [s[0]] + Insert(s[1..], k)
  }

  /** The distinct elements in ascending order, Python's `sorted(set(ks))`. */
  function SortedSet(ks: seq<string>): (r: seq<string>) {
    if ks == [] then [] else Insert(SortedSet(ks[..|ks| - 1]), ks[|ks| - 1])
  }

  lemma {:induction false} InsertMembers(s: seq<string>, k: string, x: string)
    ensures x in Insert(s, k) <==> x in s || x == k
  {
    if s != [] && s[0] != k && !Less(k, s[0]) {
      InsertMembers(s[1..], k, x);
      assert s == [s[0]] + s[1..];
    }
  }

  lemma {:induction false} SortedCons(x: string, s: seq<string>)
    requires StrictlySorted(s) && forall y :: y in s ==> Less(x, y)
    ensures StrictlySorted([x] + s)
  {
  }

  lemma {:induction false} InsertSorted(s: seq<string>, k: string)
    requires StrictlySorted(s)
    ensures StrictlySorted(Insert(s, k))
  {
    if s != [] && s[0] != k {
      LessTotal(k, s[0]);
      assert StrictlySorted(s[1..]);
      if Less(k, s[0]) {
        forall y | y in s
          ensures Less(k, y)
        {
          if y != s[0] {
            var j :| 0 <= j < |s| && s[j] == y;
            LessTransitive(k, s[0], y);
          }
        }
        SortedCons(k, s);
      } else {
        InsertSorted(s[1..], k);
        forall y | y in Insert(s[1..], k)
          ensures Less(s[0], y)
        {
          InsertMembers(s[1..], k, y);
        }
        SortedCons(s[0], Insert(s[1..], k));
      }
    }
  }

  lemma {:induction false} SortedSetSpec(ks: seq<string>)
    ensures StrictlySorted(SortedSet(ks))
    ensures forall x :: x in SortedSet(ks) <==> x in ks
  {
    if ks != [] {
      var init, k := ks[..|ks| - 1], ks[|ks| - 1];
      SortedSetSpec(init);
      InsertSorted(SortedSet(init), k);
      assert ks == init + [k];
      forall x
        ensures x in SortedSet(ks) <==> x in ks
      {
        InsertMembers(SortedSet(init), k, x);
      }
    }
  }

  /** A strictly sorted sequence is determined by its elements. */
  lemma {:induction false} SortedUnique(a: seq<string>, b: seq<string>)
    requires StrictlySorted(a) && StrictlySorted(b) && forall x :: x in a <==> x in b
    ensures a == b
  {
    assert a == [] <==> b == [] by {
      assert a != [] ==> a[0] in a && a[0] in b;
      assert b != [] ==> b[0] in b && b[0] in a;
    }
    if a != [] {
      SameLeast(a, b);
      forall x
        ensures x in a[1..] <==> x in b[1..]
      {
        TailMembers(a, x);
        TailMembers(b, x);
      }
      SortedUnique(a[1..], b[1..]);
      assert a == [a[0]] + a[1..] && b == [b[0]] + b[1..];
    }
  }

  lemma {:induction false} SameLeast(a: seq<string>, b: seq<string>)
    requires StrictlySorted(a) && StrictlySorted(b) && a != [] && b != [] && a[0] in b && b[0] in a
    ensures a[0] == b[0]
  {
    var i :| 0 <= i < |a| && a[i] == b[0];
    var j :| 0 <= j < |b| && b[j] == a[0];
    if i > 0 && j > 0 {
      LessTransitive(a[0], b[0], a[0]);
      LessIrreflexive(a[0]);
      assert false;
    }
  }

  lemma {:induction false} TailMembers(s: seq<string>, x: string)
    requires StrictlySorted(s) && s != []
    ensures x in s[1..] <==> x in s && x != s[0]
  {
    LessIrreflexive(s[0]);
    assert s == [s[0]] + s[1..];
  }
}
