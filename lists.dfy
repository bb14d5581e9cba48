/** The two Python list built-ins the move selector relies on: `max` and `list.index`. */
module Lists {

  /** `max(s)`; Python raises on an empty list, hence the precondition. */
  function Max(s: seq<int>): (m: int)
    requires |s| > 0
    ensures m in s
    ensures forall i :: 0 <= i < |s| ==> s[i] <= m
  {
    if |s| == 1 then s[0]
    else
      var rest := Max(s[1..]);
      if s[0] >= rest then s[0] else rest
  }

  /** `s.index(x)`: the position of the first occurrence of x; Python raises when x is absent. */
  function IndexOf(s: seq<int>, x: int): (i: nat)
    requires x in s
    ensures i < |s| && s[i] == x
    ensures forall j :: 0 <= j < i ==> s[j] != x
  {
    if s[0] == x then 0 else 1 + IndexOf(s[1..], x)
  }

  /** Over a list of keys in increasing order with one value each, the first position of the highest
      value has no value above it and only strictly lower values at smaller keys. */
  lemma FirstMaximumOfSorted(keys: seq<int>, values: seq<int>, j: nat)
    requires |keys| == |values| > 0 && j < |keys|
    requires forall a, c :: 0 <= a < c < |keys| ==> keys[a] < keys[c]
    ensures var k := IndexOf(values, Max(values));
      values[j] <= values[k] && (keys[j] < keys[k] ==> values[j] < values[k])
  {
    var k := IndexOf(values, Max(values));
    if keys[j] < keys[k] {
      assert j < k;
    }
  }
}
