/** Splitting text at a separator byte, as `split` on slices and strings does. */
module TextOps {
  import opened Bytes

  function Split(s: Text, sep: u8): (parts: seq<Text>)
    ensures |parts| >= 1
  {
    if s == [] then [[]]
    else
      var rest := Split(s[1..], sep);
      if s[0] == sep then [[]] + rest else [[s[0]] + rest[0]] + rest[1..]
  }

  /** A separator between two texts keeps their parts apart. */
  lemma {:induction false} SplitAcross(a: Text, b: Text, sep: u8)
    ensures Split(a + [sep] + b, sep) == Split(a, sep) + Split(b, sep)
  {
    var all := a + [sep] + b;
    if a == [] {
      assert all[0] == sep && all[1..] == b;
    } else {
      assert all[0] == a[0] && all[1..] == a[1..] + [sep] + b;
      SplitAcross(a[1..], b, sep);
    }
  }

  /** A text without separators is one part. */
  lemma {:induction false} SplitWhole(a: Text, sep: u8)
    requires sep !in a
    ensures Split(a, sep) == [a]
  {
    if a != [] {
      SplitWhole(a[1..], sep);
      assert a == [a[0]] + a[1..];
    }
  }
}
