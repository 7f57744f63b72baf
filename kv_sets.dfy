/** The set-typed keys of the key-value store (`setAdd`, `setRemove`,
    `setCount`, `getSetMembers`), each key's members held in a map. */
module KeyValueSets {

  /** The members stored under `key`; a key never written reads as the empty set,
      as `setCount` and `getSetMembers` report it. */
  function Members(m: map<string, set<string>>, key: string): set<string>
  {
    if key in m then m[key] else {}
  }

  /** `setAdd(key, value)`: the key gains `value`, every other key is untouched. */
  function SetAdd(m: map<string, set<string>>, key: string, value: string): (r: map<string, set<string>>)
    ensures value in Members(r, key)
    ensures forall k :: Members(r, k) == if k == key then Members(m, key) + {value} else Members(m, k)
  {
    m[key := Members(m, key) + {value}]
  }

  /** `setRemove(key, value)`: the key loses `value`, every other key is untouched;
      removing from a missing key writes nothing. */
  function SetRemove(m: map<string, set<string>>, key: string, value: string): (r: map<string, set<string>>)
    ensures value !in Members(r, key)
    ensures forall k :: Members(r, k) == if k == key then Members(m, key) - {value} else Members(m, k)
    ensures r.Keys == m.Keys
  {
    if key in m then m[key := m[key] - {value}] else m
  }

  predicate NoDuplicates(s: seq<string>)
  {
    forall i, j :: 0 <= i < j < |s| ==> s[i] != s[j]
  }

  /** `s` lists every member of `members` exactly once, in some order. */
  ghost predicate Enumerates(s: seq<string>, members: set<string>)
  {
    NoDuplicates(s) && forall x :: x in s <==> x in members
  }

  /** A listing of a set has as many entries as the set has members. */
  lemma {:induction false} EnumerationSize(s: seq<string>, members: set<string>)
    requires Enumerates(s, members)
    ensures |s| == |members|
  {
    if s == [] {
      assert members == {};
    } else {
      var rest := s[1..];
      assert s == [s[0]] + rest;
      forall x
        ensures x in rest <==> x in members - {s[0]}
      {
        if x in rest {
          var k :| 0 <= k < |rest| && rest[k] == x;
          assert s[k + 1] == x;
        }
      }
      assert NoDuplicates(rest) by {
        forall i, j | 0 <= i < j < |rest|
          ensures rest[i] != rest[j]
        {
          assert rest[i] == s[i + 1] && rest[j] == s[j + 1];
        }
      }
      EnumerationSize(rest, members - {s[0]});
    }
  }

  /** `getSetMembers(key)`: every member once, in an order the store chooses. */
  method GetSetMembers(m: map<string, set<string>>, key: string) returns (s: seq<string>)
    ensures Enumerates(s, Members(m, key))
    ensures |s| == |Members(m, key)|
  {
    s := [];
    var pending := Members(m, key);
    while pending != {}
      invariant pending <= Members(m, key)
      invariant NoDuplicates(s)
      invariant forall x :: x in s <==> x in Members(m, key) && x !in pending
      invariant |s| + |pending| == |Members(m, key)|
      decreases pending
    {
      var x :| x in pending;
      s := s + [x];
      pending := pending - {x};
    }
  }
}
