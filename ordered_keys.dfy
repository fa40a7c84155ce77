/** The key order of an ordered map: the keys of the unit-to-agent table
    are kept as a strictly increasing sequence, so that "the first entry
    met while walking the table" is well defined. */
module OrderedKeys {

  predicate Increasing(s: seq<nat>)
  {
    forall i, j :: 0 <= i < j < |s| ==> s[i] < s[j]
  }

  /** Inserting a key into an ordered map: the key lands at its place in
      the order, and a key already present leaves the order as it was. */
  function Insert(s: seq<nat>, x: nat): (r: seq<nat>)
    requires Increasing(s)
    ensures Increasing(r)
    ensures forall y :: y in r <==> y in s || y == x
    ensures |r| == if x in s then |s| else |s| + 1
    decreases |s|
  {
    if s == [] then [x]
    else if x < s[0] then [x] + s
    else if x == s[0] then s
    else
      var rest := Insert(s[1..], x);
      assert forall k :: 0 <= k < |rest| ==> rest[k] in s[1..] || rest[k] == x;
      [s[0]] + rest
  }
}
