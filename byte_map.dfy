/*
  std::map keyed by std::string, as the map file's attribute sets use it:
  an association list kept in strictly increasing key order, where keys
  compare byte by byte as unsigned characters (std::less<std::string>).
*/
module ByteMap {
  import opened Wrappers
  import opened MapCodec

  /** Lexicographic order on byte strings; a proper prefix comes first. */
  predicate Less(a: Bytes, b: Bytes)
    decreases |a|
  {
    |b| > 0 && (|a| == 0 || a[0] < b[0] || (a[0] == b[0] && Less(a[1..], b[1..])))
  }

  lemma {:induction false} LessIrreflexive(a: Bytes)
    ensures !Less(a, a)
    decreases |a|
  {
    if |a| > 0 {
      LessIrreflexive(a[1..]);
    }
  }

  lemma {:induction false} LessTransitive(a: Bytes, b: Bytes, c: Bytes)
    requires Less(a, b) && Less(b, c)
    ensures Less(a, c)
    decreases |a|
  {
    if |a| > 0 && a[0] == b[0] && b[0] == c[0] {
      LessTransitive(a[1..], b[1..], c[1..]);
    }
  }

  lemma {:induction false} LessTotal(a: Bytes, b: Bytes)
    ensures a == b || Less(a, b) || Less(b, a)
    decreases |a|
  {
    if |a| > 0 && |b| > 0 && a[0] == b[0] {
      LessTotal(a[1..], b[1..]);
      if a[1..] == b[1..] {
        assert a == [a[0]] + a[1..] && b == [b[0]] + b[1..];
      }
    }
  }

  type Entries<V> = seq<(Bytes, V)>

  ghost predicate Sorted<V>(m: Entries<V>)
  {
    forall i, j :: 0 <= i < j < |m| ==> Less(m[i].0, m[j].0)
  }

  function Keys<V>(m: Entries<V>): (ks: set<Bytes>)
    ensures forall i :: 0 <= i < |m| ==> m[i].0 in ks
    ensures forall k :: k in ks ==> exists i :: 0 <= i < |m| && m[i].0 == k
  {
    set i | 0 <= i < |m| :: m[i].0
  }

  /** map::find */
  function Lookup<V>(m: Entries<V>, k: Bytes): (r: Option<V>)
    ensures r.None? <==> k !in Keys(m)
  {
    if |m| == 0 then None
    else if m[0].0 == k then Some(m[0].1)
    else
      assert Keys(m) == {m[0].0} + Keys(m[1..]);
      Lookup(m[1..], k)
  }

  /** map::operator[] followed by an assignment: replaces the value of `k`,
      or inserts `k` at its place in key order. */
  function Insert<V>(m: Entries<V>, k: Bytes, v: V): Entries<V>
  {
    if |m| == 0 then [(k, v)]
    else if m[0].0 == k then [(k, v)] + m[1..]
    else if Less(k, m[0].0) then [(k, v)] + m
    else [m[0]] + Insert(m[1..], k, v)
  }

  lemma {:induction false} KeysConcat<V>(a: Entries<V>, b: Entries<V>)
    ensures Keys(a + b) == Keys(a) + Keys(b)
  {
    forall k | k in Keys(a + b) ensures k in Keys(a) + Keys(b) {
      var i :| 0 <= i < |a + b| && (a + b)[i].0 == k;
      if i >= |a| { assert b[i - |a|].0 == k; }
    }
    forall k | k in Keys(a) ensures k in Keys(a + b) {
      var i :| 0 <= i < |a| && a[i].0 == k;
      assert (a + b)[i].0 == k;
    }
    forall k | k in Keys(b) ensures k in Keys(a + b) {
      var i :| 0 <= i < |b| && b[i].0 == k;
      assert (a + b)[i + |a|].0 == k;
    }
  }

  lemma {:induction false} KeysSingle<V>(x: (Bytes, V))
    ensures Keys([x]) == {x.0}
  {
    assert [x][0].0 == x.0;
  }

  lemma {:induction false} InsertKeys<V>(m: Entries<V>, k: Bytes, v: V)
    ensures Keys(Insert(m, k, v)) == Keys(m) + {k}
  {
    KeysSingle((k, v));
    if |m| > 0 {
      KeysConcat([m[0]], m[1..]);
      assert m == [m[0]] + m[1..];
      KeysSingle(m[0]);
      if m[0].0 != k && !Less(k, m[0].0) {
        InsertKeys(m[1..], k, v);
        KeysConcat([m[0]], Insert(m[1..], k, v));
        assert Insert(m, k, v) == [m[0]] + Insert(m[1..], k, v);
      } else if m[0].0 == k {
        KeysConcat([(k, v)], m[1..]);
        assert Insert(m, k, v) == [(k, v)] + m[1..];
      } else {
        KeysConcat([(k, v)], m);
        assert Insert(m, k, v) == [(k, v)] + m;
      }
    }
  }

  /** A key below the first one goes in front and keeps the order. */
  lemma {:induction false} PrependSorted<V>(m: Entries<V>, k: Bytes, v: V)
    requires Sorted(m) && |m| > 0 && Less(k, m[0].0)
    ensures Sorted([(k, v)] + m)
  {
    var r := [(k, v)] + m;
    forall i, j | 0 <= i < j < |r| ensures Less(r[i].0, r[j].0) {
      if i == 0 && j > 1 { LessTransitive(k, m[0].0, m[j - 1].0); }
    }
  }

  /** A first key below every key of a sorted tail keeps the order. */
  lemma {:induction false} ConsSorted<V>(x: (Bytes, V), tail: Entries<V>)
    requires Sorted(tail) && forall j :: 0 <= j < |tail| ==> Less(x.0, tail[j].0)
    ensures Sorted([x] + tail)
  {
    var r := [x] + tail;
    forall i, j | 0 <= i < j < |r| ensures Less(r[i].0, r[j].0) {
      if i > 0 { assert r[i] == tail[i - 1] && r[j] == tail[j - 1]; }
    }
  }

  /** Every key of a sorted list's tail lies above its first key. */
  lemma {:induction false} TailAbove<V>(m: Entries<V>, k: Bytes)
    requires Sorted(m) && |m| > 0 && Less(m[0].0, k)
    ensures forall k2 :: k2 in Keys(m[1..]) + {k} ==> Less(m[0].0, k2)
  {
    forall k2 | k2 in Keys(m[1..]) + {k} ensures Less(m[0].0, k2) {
      if k2 != k {
        var i :| 0 <= i < |m[1..]| && m[1..][i].0 == k2;
        assert m[i + 1].0 == k2;
      }
    }
  }

  /** Insertion keeps the keys in strictly increasing order. */
  lemma {:induction false} InsertSorted<V>(m: Entries<V>, k: Bytes, v: V)
    requires Sorted(m)
    ensures Sorted(Insert(m, k, v))
  {
    if |m| > 0 {
      if m[0].0 == k {
        assert Insert(m, k, v) == [(k, v)] + m[1..];
        assert Sorted(m[1..]);
        ConsSorted((k, v), m[1..]);
      } else if Less(k, m[0].0) {
        PrependSorted(m, k, v);
      } else {
        LessTotal(k, m[0].0);
        var tail := Insert(m[1..], k, v);
        assert Sorted(m[1..]);
        InsertSorted(m[1..], k, v);
        InsertKeys(m[1..], k, v);
        TailAbove(m, k);
        forall j | 0 <= j < |tail| ensures Less(m[0].0, tail[j].0) {
          assert tail[j].0 in Keys(tail);
        }
        ConsSorted(m[0], tail);
      }
    }
  }

  /** After inserting `k`, looking it up gives the new value. */
  lemma {:induction false} LookupInsertSame<V>(m: Entries<V>, k: Bytes, v: V)
    ensures Lookup(Insert(m, k, v), k) == Some(v)
  {
    if |m| > 0 && m[0].0 != k && !Less(k, m[0].0) {
      LookupInsertSame(m[1..], k, v);
    }
  }

  /** Inserting `k` leaves every other key's value as it was. */
  lemma {:induction false} LookupInsertOther<V>(m: Entries<V>, k: Bytes, v: V, k2: Bytes)
    requires k2 != k
    ensures Lookup(Insert(m, k, v), k2) == Lookup(m, k2)
  {
    if |m| > 0 && m[0].0 != k && !Less(k, m[0].0) {
      LookupInsertOther(m[1..], k, v, k2);
    }
  }

  /** The entries after inserting those of `l` one by one, in order. */
  function InsertAll<V>(m: Entries<V>, l: Entries<V>): Entries<V>
    decreases |l|
  {
    if |l| == 0 then m else InsertAll(Insert(m, l[0].0, l[0].1), l[1..])
  }

  /** A key greater than every key present goes at the end. */
  lemma {:induction false} InsertLast<V>(m: Entries<V>, k: Bytes, v: V)
    requires forall i :: 0 <= i < |m| ==> Less(m[i].0, k)
    ensures Insert(m, k, v) == m + [(k, v)]
  {
    if |m| > 0 {
      LessIrreflexive(k);
      assert !Less(k, m[0].0) by {
        if Less(k, m[0].0) { LessTransitive(k, m[0].0, k); LessIrreflexive(k); }
      }
      InsertLast(m[1..], k, v);
      assert m == [m[0]] + m[1..];
    }
  }

  /** Setting the entries of a sorted list one by one, in order, rebuilds
      exactly that list: the reader's setMapAttribute calls recreate the
      map the writer iterated. */
  lemma {:induction false} InsertAllSorted<V>(m: Entries<V>, l: Entries<V>)
    requires Sorted(m + l)
    ensures InsertAll(m, l) == m + l
    decreases |l|
  {
    if |l| > 0 {
      var ml := m + l;
      forall i | 0 <= i < |m| ensures Less(m[i].0, l[0].0) {
        assert ml[i] == m[i] && ml[|m|] == l[0];
      }
      InsertLast(m, l[0].0, l[0].1);
      assert (m + [l[0]]) + l[1..] == m + l;
      InsertAllSorted(m + [l[0]], l[1..]);
    }
  }
}
