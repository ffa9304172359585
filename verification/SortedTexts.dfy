/** Texts in ascending order without repetition: what `sort.Strings` makes of the keys of a map, and
    the order of the groups of a `GROUP BY … ORDER BY` on one text column. */
module SortedTexts {
  import opened Text

  ghost predicate Sorted(keys: seq<string>) {
    forall i, j :: 0 <= i < j < |keys| ==> Less(keys[i], keys[j])
  }

  /** Puts a key into its place among sorted keys. */
  function InsertKey(keys: seq<string>, k: string): seq<string> {
    if keys == [] then [k]
    else if Less(k, keys[0]) then [k] + keys
    else [keys[0]] + InsertKey(keys[1..], k)
  }

  lemma {:induction false} InsertKeySorted(keys: seq<string>, k: string)
    requires Sorted(keys) && k !in keys
    ensures Sorted(InsertKey(keys, k))
    ensures forall x :: x in InsertKey(keys, k) <==> x == k || x in keys
  {
    if keys != [] {
      var (first, rest) := (keys[0], keys[1..]);
      assert keys == [first] + rest;
      LessTotal(first, k);
      if Less(k, first) {
        forall m | 0 <= m < |keys| ensures Less(k, keys[m]) {
          if m > 0 {
            LessTransitive(k, first, keys[m]);
          }
        }
      } else {
        InsertKeySorted(rest, k);
        var r := InsertKey(rest, k);
        forall m | 0 <= m < |r| ensures Less(first, r[m]) {
          assert r[m] in r;
          if r[m] != k {
            var i :| 0 <= i < |rest| && rest[i] == r[m];
            assert keys[i + 1] == r[m];
          }
        }
      }
    }
  }

  /** The keys of a map as `sort.Strings` leaves them. */
  ghost function SortedKeys(keys: set<string>): (r: seq<string>)
    ensures Sorted(r) && forall k :: k in r <==> k in keys
  {
    if keys == {} then []
    else
      var k :| k in keys;
      InsertKeySorted(SortedKeys(keys - {k}), k);
      InsertKey(SortedKeys(keys - {k}), k)
  }

  lemma {:induction false} SortedUnique(a: seq<string>, b: seq<string>)
    requires Sorted(a) && Sorted(b) && forall k :: k in a <==> k in b
    ensures a == b
  {
    if a == [] {
      if b != [] {
        FirstIsIn(b);
      }
    } else {
      assert a[0] in a;
      FirstIsIn(b);
      LessTotal(a[0], b[0]);
      var (x, y) := (a[1..], b[1..]);
      assert a[0] == b[0] by {
        TailOfSorted(a, b[0]);
        TailOfSorted(b, a[0]);
      }
      forall k ensures k in x <==> k in y {
        TailOfSorted(a, k);
        TailOfSorted(b, k);
      }
      SortedUnique(x, y);
      assert a == [a[0]] + x && b == [b[0]] + y;
    }
  }

  lemma FirstIsIn(a: seq<string>)
    ensures a != [] ==> a[0] in a
  {
  }

  lemma TailOfSorted(a: seq<string>, k: string)
    requires Sorted(a) && a != []
    ensures k in a[1..] <==> k in a && k != a[0]
    ensures k in a && k != a[0] ==> Less(a[0], k)
  {
    LessIrreflexive(a[0]);
    assert a == [a[0]] + a[1..];
    if k in a[1..] {
      var i :| 0 <= i < |a[1..]| && a[1..][i] == k;
      assert Less(a[0], a[i + 1]);
    }
  }
}
