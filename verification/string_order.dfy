/** The order of Rust's `String` keys in a `BTreeMap`: lexicographic by
    character (for UTF-8 text, the byte order is the code-point order), with a
    proper prefix before any of its extensions. */
module StringOrder {

  /** `a` sorts strictly before `b`. */
  predicate Less(a: string, b: string)
    decreases |a|
  {
    |b| > 0 && (|a| == 0 || a[0] < b[0] || (a[0] == b[0] && Less(a[1..], b[1..])))
  }

  lemma {:induction false} LessIrreflexive(a: string)
    ensures !Less(a, a)
    decreases |a|
  {
    if |a| > 0 {
      LessIrreflexive(a[1..]);
    }
  }

  lemma {:induction false} LessTransitive(a: string, b: string, c: string)
    requires Less(a, b) && Less(b, c)
    ensures Less(a, c)
    decreases |a|
  {
    if |a| > 0 && a[0] == b[0] && b[0] == c[0] {
      LessTransitive(a[1..], b[1..], c[1..]);
    }
  }

  /** Any two different strings are ordered one way or the other. */
  lemma {:induction false} LessTotal(a: string, b: string)
    requires a != b
    ensures Less(a, b) || Less(b, a)
    decreases |a|
  {
    if |a| > 0 && |b| > 0 && a[0] == b[0] {
      assert a == [a[0]] + a[1..] && b == [b[0]] + b[1..];
      LessTotal(a[1..], b[1..]);
    }
  }

  lemma LessAsymmetric(a: string, b: string)
    requires Less(a, b)
    ensures !Less(b, a)
  {
    if Less(b, a) {
      LessTransitive(a, b, a);
      LessIrreflexive(a);
    }
  }

  /** Every element sorts strictly before every later one. */
  predicate StrictlyAscending(s: seq<string>) {
    forall i, j :: 0 <= i < j < |s| ==> Less(s[i], s[j])
  }

  /** Something below the first element of an ascending sequence is below all of it. */
  lemma BelowHeadBelowAll(k: string, keys: seq<string>)
    requires StrictlyAscending(keys) && |keys| > 0 && Less(k, keys[0])
    ensures forall j :: 0 <= j < |keys| ==> Less(k, keys[j])
  {
    forall j | 0 < j < |keys|
      ensures Less(k, keys[j])
    {
      LessTransitive(k, keys[0], keys[j]);
    }
  }

  /** Places `k` into an ascending sequence that lacks it. */
  function Insert(keys: seq<string>, k: string): (r: seq<string>)
    requires StrictlyAscending(keys) && k !in keys
    ensures StrictlyAscending(r)
    ensures multiset(r) == multiset(keys) + multiset{k}
    decreases |keys|
  {
    if keys == [] then [k]
    else if Less(k, keys[0]) then
      BelowHeadBelowAll(k, keys);
      [k] + keys
    else
      LessTotal(k, keys[0]);
      assert keys == [keys[0]] + keys[1..];
      var rest := Insert(keys[1..], k);
      HeadBelowRest(keys, k, rest);
      [keys[0]] + rest
  }

  /** The head of an ascending sequence is below everything in its tail with `k`
      added, when it is below `k`. */
  lemma HeadBelowRest(keys: seq<string>, k: string, rest: seq<string>)
    requires StrictlyAscending(keys) && |keys| > 0 && Less(keys[0], k)
    requires multiset(rest) == multiset(keys[1..]) + multiset{k}
    ensures forall j :: 0 <= j < |rest| ==> Less(keys[0], rest[j])
  {
    forall j | 0 <= j < |rest|
      ensures Less(keys[0], rest[j])
    {
      assert rest[j] in multiset(rest);
      if rest[j] != k {
        assert rest[j] in multiset(keys[1..]);
        var i :| 0 <= i < |keys[1..]| && keys[1..][i] == rest[j];
        assert keys[i + 1] == rest[j];
      }
    }
  }

  /** An ascending sequence is fixed by its elements: two with the same elements
      are equal. */
  lemma {:induction false} AscendingUnique(a: seq<string>, b: seq<string>)
    requires StrictlyAscending(a) && StrictlyAscending(b)
    requires forall x :: x in a <==> x in b
    ensures a == b
    decreases |a|
  {
    if a != [] {
      assert a[0] in a;
    }
    if b != [] {
      assert b[0] in b;
    }
    if a != [] && b != [] {
      assert a[0] in b;
      assert b[0] in a;
      var i :| 0 <= i < |b| && b[i] == a[0];
      var j :| 0 <= j < |a| && a[j] == b[0];
      if a[0] != b[0] {
        assert i > 0 && j > 0;
        LessAsymmetric(b[0], b[i]);
      }
      forall x
        ensures x in a[1..] <==> x in b[1..]
      {
        if x in a[1..] {
          var p :| 0 <= p < |a[1..]| && a[1..][p] == x;
          assert Less(a[0], a[p + 1]);
          LessIrreflexive(a[0]);
          assert x in a && x in b;
          var q :| 0 <= q < |b| && b[q] == x;
          assert q != 0 && b[1..][q - 1] == x;
        }
        if x in b[1..] {
          var p :| 0 <= p < |b[1..]| && b[1..][p] == x;
          assert Less(b[0], b[p + 1]);
          LessIrreflexive(b[0]);
          assert x in b && x in a;
          var q :| 0 <= q < |a| && a[q] == x;
          assert q != 0 && a[1..][q - 1] == x;
        }
      }
      AscendingUnique(a[1..], b[1..]);
      assert a == [a[0]] + a[1..] && b == [b[0]] + b[1..];
    }
  }
}
