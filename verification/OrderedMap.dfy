/** `BTreeMap<String, V>`: a list of entries in strictly increasing key order. */
module OrderedMap {
  import opened Wrappers
  import opened Bytes
  import opened Order

  /** The order of Rust strings: byte by byte. */
  predicate Less(a: Text, b: Text) {
    Lex(ByteLess, a, b)
  }

  predicate ByteLess(x: u8, y: u8) { x < y }

  lemma LessOrders(a: Text, b: Text, c: Text)
    ensures !Less(a, a) && (a == b || Less(a, b) || Less(b, a))
    ensures Less(a, b) && Less(b, c) ==> Less(a, c)
  {
    LexTotal(ByteLess, a, b);
    if Less(a, a) {
      LexAsymmetric(ByteLess, a, a);
    }
    if Less(a, b) && Less(b, c) {
      LexTransitive(ByteLess, a, b, c);
    }
  }

  /** A key comes before another if it is a proper prefix of it, or has the smaller byte where the
      two first differ. */
  lemma LessMeans(a: Text, b: Text)
    ensures Less(a, b) <==>
      exists k: nat :: k <= |a| && k < |b| && a[..k] == b[..k] && (k == |a| || a[k] < b[k])
  {
    LexMeans(ByteLess, a, b);
    if Less(a, b) {
      var k: nat :| DecidedAt(ByteLess, a, b, k);
      assert a[..k] == b[..k];
    }
    forall k: nat | k <= |a| && k < |b| && a[..k] == b[..k] && (k == |a| || a[k] < b[k])
      ensures DecidedAt(ByteLess, a, b, k)
    {
    }
  }

  type Entries<V> = seq<(Text, V)>

  predicate Sorted<V>(m: Entries<V>) {
    forall i, j :: 0 <= i < j < |m| ==> Less(m[i].0, m[j].0)
  }

  type BTree<V> = m: Entries<V> | Sorted(m) witness []

  function Lookup<V>(m: Entries<V>, k: Text): Option<V> {
    if m == [] then None
    else if m[0].0 == k then Some(m[0].1)
    else Lookup(m[1..], k)
  }

  function Insert<V>(m: Entries<V>, k: Text, v: V): Entries<V> {
    if m == [] then [(k, v)]
    else if m[0].0 == k then [(k, v)] + m[1..]
    else if Less(k, m[0].0) then [(k, v)] + m
    else [m[0]] + Insert(m[1..], k, v)
  }

  /** Insert entries one after the other: what `collect` and an inserting loop do. */
  function InsertAll<V>(m: Entries<V>, es: Entries<V>): Entries<V> {
    if es == [] then m else Insert(InsertAll(m, es[..|es| - 1]), es[|es| - 1].0, es[|es| - 1].1)
  }

  lemma {:induction false} LookupAbsent<V>(m: Entries<V>, k: Text)
    ensures Lookup(m, k) == None <==> forall e :: e in m ==> e.0 != k
  {
    if m != [] {
      LookupAbsent(m[1..], k);
      assert forall e :: e in m <==> e == m[0] || e in m[1..];
    }
  }

  lemma {:induction false} LookupPresent<V>(m: Entries<V>, i: nat)
    requires Sorted(m) && i < |m|
    ensures Lookup(m, m[i].0) == Some(m[i].1)
  {
    if i > 0 {
      LessOrders(m[i].0, m[i].0, m[i].0);
      LookupPresent(m[1..], i - 1);
    }
  }

  lemma {:induction false} LookupInsert<V>(m: Entries<V>, k: Text, v: V, k': Text)
    requires Sorted(m)
    ensures Lookup(Insert(m, k, v), k') == if k' == k then Some(v) else Lookup(m, k')
  {
    if m != [] && m[0].0 != k && !Less(k, m[0].0) {
      LookupInsert(m[1..], k, v, k');
      var rest := Insert(m[1..], k, v);
      assert ([m[0]] + rest)[1..] == rest;
    } else if m != [] && m[0].0 == k {
      assert ([(k, v)] + m[1..])[1..] == m[1..];
    } else {
      assert ([(k, v)] + m)[1..] == m;
    }
  }

  lemma {:induction false} InsertKeys<V>(m: Entries<V>, k: Text, v: V)
    ensures forall e :: e in Insert(m, k, v) ==> e == (k, v) || e in m
  {
    if m != [] && m[0].0 != k && !Less(k, m[0].0) {
      InsertKeys(m[1..], k, v);
    }
  }

  lemma SortedCons<V>(e: (Text, V), rest: Entries<V>)
    requires Sorted(rest) && forall x :: x in rest ==> Less(e.0, x.0)
    ensures Sorted([e] + rest)
  {
  }

  lemma {:induction false} InsertSorted<V>(m: Entries<V>, k: Text, v: V)
    requires Sorted(m)
    ensures Sorted(Insert(m, k, v))
  {
    if m == [] {
    } else if m[0].0 == k {
      SortedCons((k, v), m[1..]);
    } else if Less(k, m[0].0) {
      forall x | x in m ensures Less(k, x.0) {
        if x != m[0] {
          LessOrders(k, m[0].0, x.0);
        }
      }
      SortedCons((k, v), m);
    } else {
      LessOrders(k, m[0].0, k);
      InsertSorted(m[1..], k, v);
      InsertKeys(m[1..], k, v);
      SortedCons(m[0], Insert(m[1..], k, v));
    }
  }

  lemma {:induction false} InsertAllSorted<V>(m: Entries<V>, es: Entries<V>)
    requires Sorted(m)
    ensures Sorted(InsertAll(m, es))
  {
    if es != [] {
      InsertAllSorted(m, es[..|es| - 1]);
      InsertSorted(InsertAll(m, es[..|es| - 1]), es[|es| - 1].0, es[|es| - 1].1);
    }
  }

  lemma {:induction false} LookupSnoc<V>(es: Entries<V>, e: (Text, V), k: Text)
    ensures Lookup(es + [e], k) == if Lookup(es, k).Some? then Lookup(es, k) else if e.0 == k then Some(e.1) else None
  {
    if es == [] {
      assert es + [e] == [e];
    } else {
      assert (es + [e])[1..] == es[1..] + [e];
      LookupSnoc(es[1..], e, k);
    }
  }

  /** After a merge every key has the value of the entries merged in, or else the one it had. */
  lemma {:induction false} LookupInsertAll<V>(m: Entries<V>, es: Entries<V>, k: Text)
    requires Sorted(m) && Sorted(es)
    ensures Lookup(InsertAll(m, es), k) == if Lookup(es, k).Some? then Lookup(es, k) else Lookup(m, k)
  {
    if es != [] {
      var init, last := es[..|es| - 1], es[|es| - 1];
      InsertAllSorted(m, init);
      LookupInsert(InsertAll(m, init), last.0, last.1, k);
      LookupInsertAll(m, init, k);
      assert es == init + [last];
      LookupSnoc(init, last, k);
      if k == last.0 {
        forall e | e in init ensures e.0 != k {
          LessOrders(k, k, k);
        }
        LookupAbsent(init, k);
      }
    }
  }

  /** A key larger than all others goes to the end. */
  lemma {:induction false} InsertLast<V>(m: Entries<V>, k: Text, v: V)
    requires Sorted(m + [(k, v)])
    ensures Insert(m, k, v) == m + [(k, v)]
  {
    if m == [] {
    } else {
      var all := m + [(k, v)];
      assert all[0] == m[0] && all[|m|] == (k, v);
      LessOrders(k, m[0].0, k);
      assert all[1..] == m[1..] + [(k, v)];
      InsertLast(m[1..], k, v);
      assert m == [m[0]] + m[1..];
    }
  }

  /** Collecting entries that are already in order changes nothing. */
  lemma {:induction false} CollectSorted<V>(es: Entries<V>)
    requires Sorted(es)
    ensures InsertAll([], es) == es
  {
    if es != [] {
      var init, last := es[..|es| - 1], es[|es| - 1];
      CollectSorted(init);
      assert es == init + [last] && last == (last.0, last.1);
      InsertLast(init, last.0, last.1);
    }
  }
}
