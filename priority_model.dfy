/** TaskPriorityModel: the combo-box model listing the task priorities,
    highest first, optionally with a trailing null entry. The priority
    enumeration is a parameter: its declaration order is the sequence
    `values`. */
module PriorityModel {
  import opened Common
  import opened Text

  /** ArrayUtils.reverse, on a value. */
  function Reverse<T>(s: seq<T>): (r: seq<T>)
    ensures |r| == |s|
    ensures forall i :: 0 <= i < |s| ==> r[i] == s[|s| - 1 - i]
  {
    if s == [] then [] else Reverse(s[1..]) + [s[0]]
  }

  lemma ReverseReverse<T>(s: seq<T>)
    ensures Reverse(Reverse(s)) == s
  {
    assert forall i :: 0 <= i < |s| ==> Reverse(Reverse(s))[i] == s[i];
  }

  /** Every priority wrapped as a non-null entry. */
  function Entries<T>(values: seq<T>): (r: seq<Option<T>>)
    ensures |r| == |values|
    ensures forall i :: 0 <= i < |values| ==> r[i] == Some(values[i])
  {
    seq(|values|, i requires 0 <= i < |values| => Some(values[i]))
  }

  /** generateArray: ([null] when firstNull) followed by the priorities in
      declaration order, then reversed. */
  function GenerateArray<T>(firstNull: bool, values: seq<T>): seq<Option<T>> {
    Reverse((if firstNull then [None] else []) + Entries(values))
  }

  /** The array holds every priority, plus one entry when firstNull. */
  lemma GenerateArrayLength<T>(firstNull: bool, values: seq<T>)
    ensures |GenerateArray(firstNull, values)| == |values| + (if firstNull then 1 else 0)
  {
  }

  /** Entry i is the priority declared i-th from the end. */
  lemma GenerateArrayEntries<T>(firstNull: bool, values: seq<T>)
    ensures forall i :: 0 <= i < |values| ==>
      GenerateArray(firstNull, values)[i] == Some(values[|values| - 1 - i])
  {
    var pre: seq<Option<T>> := if firstNull then [None] else [];
    var s := pre + Entries(values);
    forall i | 0 <= i < |values|
      ensures GenerateArray(firstNull, values)[i] == Some(values[|values| - 1 - i])
    {
      assert s[|s| - 1 - i] == Entries(values)[|values| - 1 - i];
    }
  }

  /** With firstNull the only null entry is the last; without it there is
      none. */
  lemma GenerateArrayNulls<T>(firstNull: bool, values: seq<T>)
    ensures var r := GenerateArray(firstNull, values);
      forall i :: 0 <= i < |r| ==> (r[i].None? <==> firstNull && i == |r| - 1)
  {
    var pre: seq<Option<T>> := if firstNull then [None] else [];
    var s := pre + Entries(values);
    var r := GenerateArray(firstNull, values);
    forall i | 0 <= i < |r| ensures r[i].None? <==> firstNull && i == |r| - 1 {
      assert r[i] == s[|s| - 1 - i];
      if |s| - 1 - i >= |pre| {
        assert s[|s| - 1 - i] == Entries(values)[|s| - 1 - i - |pre|];
      }
    }
  }

  /** The first entry is the last-declared priority. */
  lemma GenerateArrayFirst<T>(firstNull: bool, values: seq<T>)
    requires values != []
    ensures GenerateArray(firstNull, values)[0] == Some(values[|values| - 1])
  {
    GenerateArrayEntries(firstNull, values);
  }

  /** Reversing the array gives back the list it was built from. */
  lemma GenerateArrayUnreversed<T>(firstNull: bool, values: seq<T>)
    ensures Reverse(GenerateArray(firstNull, values)) ==
      (if firstNull then [None] else []) + Entries(values)
  {
    ReverseReverse((if firstNull then [None] else []) + Entries(values));
  }

  const PriorityColorPrefix := "theme.color.priority"

  /** propertyChange: a setting whose key starts with
      "theme.color.priority" makes the model fire a contents change over
      its whole range 0..size-1; any other key fires nothing. */
  function RefreshRange(key: string, size: nat): (r: Option<(int, int)>)
    ensures r.Some? <==> StartsWith(key, PriorityColorPrefix)
    ensures r.Some? ==> r.value == (0, size - 1)
  {
    if StartsWith(key, PriorityColorPrefix) then Some((0, size - 1)) else None
  }

  /** The keys that refresh are exactly the prefix followed by anything. */
  lemma RefreshKeys(key: string, size: nat)
    ensures RefreshRange(key, size).Some? <==>
      exists suffix :: key == PriorityColorPrefix + suffix
  {
    if StartsWith(key, PriorityColorPrefix) {
      var suffix := key[|PriorityColorPrefix|..];
      assert key == PriorityColorPrefix + suffix;
    }
  }
}
