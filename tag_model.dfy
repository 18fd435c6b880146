/** TaskTagModel: the list model of task tags. It copies the tag list once
    and then follows its change events: an added tag is appended, a
    removed tag drops the first entry equal to it ignoring case. Entries
    are IgnoreCaseString values: they keep their own text but compare by
    their lower-cased form. */
module TagModel {
  import opened Common
  import opened Text

  /** listChange, on the list of entries. */
  function ApplyChange(entries: seq<string>, changeType: ChangeType, tag: string): (r: seq<string>)
    ensures changeType == VALUE_ADDED ==> multiset(Keys(r)) == multiset(Keys(entries)) + multiset{Lower(tag)}
    ensures changeType == VALUE_REMOVED ==> multiset(Keys(r)) == multiset(Keys(entries)) - multiset{Lower(tag)}
    ensures changeType == VALUE_REMOVED && Lower(tag) !in Keys(entries) ==> r == entries
    ensures changeType.OtherChange? ==> r == entries
  {
    match changeType
    case VALUE_ADDED =>
      KeysAppend(entries, [tag]);
      assert Keys(entries + [tag]) == Keys(entries) + [Lower(tag)];
      entries + [tag]
    case VALUE_REMOVED => RemoveFirstIgnoreCase(entries, tag)
    case OtherChange(_) => entries
  }

  /** An added tag goes at the end, whatever index the event reports. */
  lemma AddAppends(entries: seq<string>, tag: string)
    ensures var r := ApplyChange(entries, VALUE_ADDED, tag);
      |r| == |entries| + 1 && r[..|entries|] == entries && r[|entries|] == tag
  {
  }

  /** Removing drops exactly the first entry equal to the tag ignoring
      case, keeping the others in order. */
  lemma RemoveDropsFirstMatch(entries: seq<string>, tag: string)
    requires Lower(tag) in Keys(entries)
    ensures var k := IndexOfIgnoreCase(entries, tag);
      && 0 <= k
      && ApplyChange(entries, VALUE_REMOVED, tag) == entries[..k] + entries[k + 1..]
      && forall j :: 0 <= j < k ==> Lower(entries[j]) != Lower(tag)
  {
    var k := IndexOfIgnoreCase(entries, tag);
    forall j | 0 <= j < k ensures Lower(entries[j]) != Lower(tag) {
      assert Keys(entries)[..k][j] == Lower(entries[j]);
    }
  }

  /** Adding a tag not yet present and then removing it gives back the
      entries unchanged. */
  lemma {:induction false} AddThenRemove(entries: seq<string>, tag: string)
    requires Lower(tag) !in Keys(entries)
    ensures ApplyChange(ApplyChange(entries, VALUE_ADDED, tag), VALUE_REMOVED, tag) == entries
  {
    var added := entries + [tag];
    assert Keys(added)[|entries|] == Lower(tag);
    var k := IndexOfIgnoreCase(added, tag);
    assert Keys(added)[..|entries|] == Keys(entries);
    assert k == |entries|;
    assert added[..k] + added[k + 1..] == entries;
  }

  class TaskTagModel {
    /** The elements of the list model, in order. */
    var entries: seq<string>

    /** The constructor copies the tag list's tags in order. */
    constructor (tags: seq<string>)
      ensures entries == tags
    {
      entries := [];
      new;
      var i := 0;
      while i < |tags|
        invariant 0 <= i <= |tags|
        invariant entries == tags[..i]
      {
        entries := entries + [tags[i]];
        i := i + 1;
      }
    }

    /** listChange: the event's tag is added or removed; other change
        types are ignored. */
    method ListChange(changeType: ChangeType, tag: string)
      modifies this
      ensures entries == ApplyChange(old(entries), changeType, tag)
    {
      if changeType == VALUE_ADDED {
        entries := entries + [tag];
      } else if changeType == VALUE_REMOVED {
        var k := 0;
        while k < |entries| && Lower(entries[k]) != Lower(tag)
          invariant 0 <= k <= |entries|
          invariant Lower(tag) !in Keys(entries)[..k]
        {
          k := k + 1;
        }
        if k < |entries| {
          assert Keys(entries)[k] == Lower(tag);
          assert IndexOf(Keys(entries), Lower(tag)) == k;
          entries := entries[..k] + entries[k + 1..];
        }
      }
    }
  }
}
