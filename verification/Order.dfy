/** Lexicographic order over any order of the elements: of strings, of keys, of number fields. */
module Order {

  /** A proper prefix comes first, and otherwise the first difference decides. */
  predicate Lex<T(==)>(less: (T, T) -> bool, a: seq<T>, b: seq<T>) {
    if b == [] then false
    else if a == [] then true
    else less(a[0], b[0]) || (a[0] == b[0] && Lex(less, a[1..], b[1..]))
  }

  ghost predicate StrictTotal<T(!new)>(less: (T, T) -> bool) {
    && (forall x, y :: less(x, y) ==> !less(y, x))
    && (forall x, y :: x == y || less(x, y) || less(y, x))
    && (forall x, y, z :: less(x, y) && less(y, z) ==> less(x, z))
  }

  lemma {:induction false} LexTransitive<T(!new)>(less: (T, T) -> bool, a: seq<T>, b: seq<T>, c: seq<T>)
    requires StrictTotal(less) && Lex(less, a, b) && Lex(less, b, c)
    ensures Lex(less, a, c)
  {
    if a != [] && a[0] == b[0] && b[0] == c[0] {
      LexTransitive(less, a[1..], b[1..], c[1..]);
    }
  }

  lemma {:induction false} LexAsymmetric<T(!new)>(less: (T, T) -> bool, a: seq<T>, b: seq<T>)
    requires StrictTotal(less) && Lex(less, a, b)
    ensures !Lex(less, b, a)
  {
    if a != [] && a[0] == b[0] {
      LexAsymmetric(less, a[1..], b[1..]);
    }
  }

  lemma {:induction false} LexTotal<T(!new)>(less: (T, T) -> bool, a: seq<T>, b: seq<T>)
    requires StrictTotal(less)
    ensures a == b || Lex(less, a, b) || Lex(less, b, a)
  {
    if a != [] && b != [] {
      LexTotal(less, a[1..], b[1..]);
      assert a == [a[0]] + a[1..] && b == [b[0]] + b[1..];
    }
  }

  /** The first difference, or else the shorter length, decides at position k. */
  predicate DecidedAt<T(==)>(less: (T, T) -> bool, a: seq<T>, b: seq<T>, k: nat) {
    k <= |a| && k < |b| && a[..k] == b[..k] && (k == |a| || less(a[k], b[k]))
  }

  lemma {:induction false} LexMeans<T(!new)>(less: (T, T) -> bool, a: seq<T>, b: seq<T>)
    requires StrictTotal(less)
    ensures Lex(less, a, b) <==> exists k: nat :: DecidedAt(less, a, b, k)
  {
    if a == [] || b == [] || a[0] != b[0] {
      if Lex(less, a, b) {
        assert DecidedAt(less, a, b, 0);
      }
      forall k: nat | DecidedAt(less, a, b, k) ensures Lex(less, a, b) {
        assert k == 0;
      }
    } else {
      LexMeans(less, a[1..], b[1..]);
      forall k: nat | DecidedAt(less, a[1..], b[1..], k) ensures DecidedAt(less, a, b, k + 1) {
        assert a[..k + 1] == [a[0]] + a[1..][..k] && b[..k + 1] == [b[0]] + b[1..][..k];
      }
      forall k: nat | DecidedAt(less, a, b, k) ensures k > 0 && DecidedAt(less, a[1..], b[1..], k - 1) {
        assert !less(a[0], a[0]);
        assert a[1..][..k - 1] == a[..k][1..] && b[1..][..k - 1] == b[..k][1..];
      }
    }
  }
}
