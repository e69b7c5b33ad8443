/** The Python exceptions the search can raise, and a Python dict with string keys. */
module Py {
  import opened Seqs

  /** Exceptions raised by the core: a failed int() conversion, a missing list
      element, a missing dictionary or table key, and the empty search area. */
  datatype Exception = ValueError | IndexError | KeyError | SearchAreaError

  /** A dict keyed by strings: its keys in insertion order and the value stored at each. */
  datatype Dict<V> = Dict(keys: seq<string>, values: map<string, V>) {
    predicate Valid() {
      (forall i, j :: 0 <= i < j < |keys| ==> keys[i] != keys[j]) &&
      values.Keys == Members(keys)
    }
  }

  /** The set of strings listed in `s`. */
  function Members(s: seq<string>): (r: set<string>)
    ensures forall i :: 0 <= i < |s| ==> s[i] in r
    decreases |s|
  {
    if s == [] then {}
    else
      var rest := Members(s[1..]);
      assert forall i :: 0 < i < |s| ==> s[i] == s[1..][i - 1];
      {s[0]} + rest
  }

  function EmptyDict<V>(): (d: Dict<V>)
    ensures d.Valid() && d.keys == []
  {
    Dict([], map[])
  }

  /** `d[k] = v`: a new key is appended to the key order, an existing key keeps its place. */
  function Insert<V>(d: Dict<V>, k: string, v: V): (r: Dict<V>)
    requires d.Valid()
    ensures r.Valid()
    ensures r.values == d.values[k := v]
    ensures k in d.values ==> r.keys == d.keys
    ensures k !in d.values ==> r.keys == d.keys + [k]
  {
    if k in d.values then Dict(d.keys, d.values[k := v])
    else
      MembersAppend(d.keys, k);
      Dict(d.keys + [k], d.values[k := v])
  }

  /** `del d[k]` on a key that is present; the remaining keys keep their order. */
  function Delete<V>(d: Dict<V>, k: string): (r: Dict<V>)
    requires d.Valid() && k in d.values
    ensures r.Valid()
    ensures r.values == d.values - {k}
    ensures r.keys == Filter(d.keys, key => key != k)
  {
    var keys := Filter(d.keys, key => key != k);
    FilterIsSubsequence(d.keys, key => key != k);
    DistinctSubsequence(keys, d.keys);
    MembersWithout(d.keys, k);
    Dict(keys, d.values - {k})
  }

  // ---- Lemmas -----------------------------------------------------------

  lemma {:induction false} MemberListed(s: seq<string>, x: string)
    requires x in Members(s)
    ensures x in s
    decreases |s|
  {
    if s[0] != x {
      MemberListed(s[1..], x);
    }
  }

  /** A string is a member of `s` exactly when `s` lists it. */
  lemma MembersListed(s: seq<string>)
    ensures forall x :: x in Members(s) <==> x in s
  {
    forall x | x in Members(s) ensures x in s {
      MemberListed(s, x);
    }
  }

  lemma {:induction false} MembersAppend(s: seq<string>, k: string)
    ensures Members(s + [k]) == Members(s) + {k}
    decreases |s|
  {
    if s != [] {
      assert (s + [k])[1..] == s[1..] + [k];
      MembersAppend(s[1..], k);
    } else {
      assert s + [k] == [k];
    }
  }

  lemma {:induction false} MembersWithout(s: seq<string>, k: string)
    ensures Members(Filter(s, key => key != k)) == Members(s) - {k}
    decreases |s|
  {
    if s != [] {
      MembersWithout(s[1..], k);
      var rest := Filter(s[1..], key => key != k);
      if s[0] != k {
        assert Filter(s, key => key != k) == [s[0]] + rest;
        assert ([s[0]] + rest)[0] == s[0] && ([s[0]] + rest)[1..] == rest;
      } else {
        assert Filter(s, key => key != k) == rest;
      }
    }
  }

  lemma {:induction false} DistinctSubsequence(a: seq<string>, b: seq<string>)
    requires IsSubsequence(a, b)
    requires forall i, j :: 0 <= i < j < |b| ==> b[i] != b[j]
    ensures forall i, j :: 0 <= i < j < |a| ==> a[i] != a[j]
    decreases |b|
  {
    if a != [] {
      if a[0] == b[0] && IsSubsequence(a[1..], b[1..]) {
        DistinctSubsequence(a[1..], b[1..]);
        SubsequenceMembers(a[1..], b[1..]);
        forall j | 0 < j < |a| ensures a[0] != a[j] {
          assert a[j] == a[1..][j - 1];
        }
        forall i, j | 0 <= i < j < |a| ensures a[i] != a[j] {
          if i > 0 {
            assert a[i] == a[1..][i - 1] && a[j] == a[1..][j - 1];
          }
        }
      } else {
        DistinctSubsequence(a, b[1..]);
      }
    }
  }
}
