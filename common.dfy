/** Wrappers and identifier types shared by every module of the model. */
module Common {

  /** A value that may be absent: a nullable column, a `find` that found nothing. */
  datatype Option<T> = None | Some(value: T)

  /** The outcome of an operation that throws a business exception on failure. */
  datatype Result<T> = Ok(value: T) | Err(message: string)

  /** Auto-increment primary keys start at 1, so a present key is never falsy in PHP. */
  type Id = n: nat | n >= 1 witness 1

  /** A calendar date as the database stores it, "YYYY-MM-DD". */
  type Date = string

  /** A point in time as the database stores it, "YYYY-MM-DD HH:MM:SS". */
  type Timestamp = string

  /**
   * The first occurrence of each value, in order: what PHP's `array_unique`
   * keeps, and the order a JavaScript `Set` built from the list iterates in.
   */
  function Distinct<T(==,!new)>(s: seq<T>): (r: seq<T>)
    ensures forall x :: x in r <==> x in s
    ensures forall i, j :: 0 <= i < j < |r| ==> r[i] != r[j]
  {
    if s == [] then []
    else
      var r := Distinct(s[..|s| - 1]);
      assert forall x :: x in s <==> x in s[..|s| - 1] || x == s[|s| - 1];
      if s[|s| - 1] in r then r else r + [s[|s| - 1]]
  }

  /** Where `x` first occurs in `s`. */
  function FirstIndex<T(==)>(s: seq<T>, x: T): (k: nat)
    requires x in s
    ensures k < |s| && s[k] == x
    ensures forall i :: 0 <= i < k ==> s[i] != x
  {
    if s[0] == x then 0 else 1 + FirstIndex(s[1..], x)
  }

  /** A value found in a prefix first occurs at the same place in the whole. */
  lemma FirstIndexOfPrefix<T>(s: seq<T>, n: nat, x: T)
    requires n <= |s| && x in s[..n]
    ensures FirstIndex(s, x) == FirstIndex(s[..n], x)
  {
    var k1, k2 := FirstIndex(s, x), FirstIndex(s[..n], x);
    assert s[k2] == x;
    assert k1 <= k2;
    assert s[..n][k1] == x;
  }

  /** The values of `r`, all found in `s`, come in the order of their first occurrences in `s`. */
  ghost predicate InFirstOrder<T>(s: seq<T>, r: seq<T>)
    requires forall x :: x in r ==> x in s
  {
    forall i, j :: 0 <= i < j < |r| ==> FirstIndex(s, r[i]) < FirstIndex(s, r[j])
  }

  /** `Distinct` lists the values in the order of their first occurrences. */
  lemma {:induction false} DistinctKeepsFirstOrder<T(!new)>(s: seq<T>)
    ensures InFirstOrder(s, Distinct(s))
  {
    if s != [] {
      var init, last := s[..|s| - 1], s[|s| - 1];
      DistinctKeepsFirstOrder(init);
      var d := Distinct(init);
      FirstOrderInWhole(s, d);
      if last !in d {
        assert last !in init;
        FirstOrderAppend(s, d);
        assert Distinct(s) == d + [last];
      }
    }
  }

  lemma FirstOrderInWhole<T>(s: seq<T>, d: seq<T>)
    requires |s| > 0 && forall x :: x in d ==> x in s[..|s| - 1]
    requires InFirstOrder(s[..|s| - 1], d)
    ensures forall x :: x in d ==> x in s && FirstIndex(s, x) < |s| - 1
    ensures InFirstOrder(s, d)
  {
    forall x | x in d ensures x in s && FirstIndex(s, x) == FirstIndex(s[..|s| - 1], x) {
      FirstIndexOfPrefix(s, |s| - 1, x);
    }
    forall i, j | 0 <= i < j < |d| ensures FirstIndex(s, d[i]) < FirstIndex(s, d[j]) {
      assert d[i] in d && d[j] in d;
    }
  }

  lemma FirstOrderAppend<T>(s: seq<T>, d: seq<T>)
    requires |s| > 0 && s[|s| - 1] !in s[..|s| - 1]
    requires forall x :: x in d ==> x in s && FirstIndex(s, x) < |s| - 1
    requires InFirstOrder(s, d)
    ensures InFirstOrder(s, d + [s[|s| - 1]])
  {
    var r := d + [s[|s| - 1]];
    forall k | 0 <= k < |s| - 1 ensures s[k] != s[|s| - 1] {
      assert s[..|s| - 1][k] == s[k];
    }
    assert FirstIndex(s, s[|s| - 1]) == |s| - 1;
    forall i, j | 0 <= i < j < |r| ensures FirstIndex(s, r[i]) < FirstIndex(s, r[j]) {
      assert r[i] == d[i] && d[i] in d;
      if j < |d| {
        assert r[j] == d[j];
      } else {
        assert r[j] == s[|s| - 1];
      }
    }
  }
}
