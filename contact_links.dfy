/** TaskContactLinkList: the contact links of all end-user tasks, kept twice:
    as a list with one entry per occurrence, and as a sorted set with one
    entry per link (links compare ignoring case). Listeners hear VALUE_ADDED
    when a link first appears, carrying its rank in the sorted set, and
    VALUE_REMOVED (index -1) when its last occurrence goes. */
module ContactLinks {
  import opened Common
  import opened Text


  /** A fired ListChangeEvent: change type, index and value. */
  datatype ListEvent = ListEvent(changeType: ChangeType, index: int, value: string)

  /** A contact of a task; its link may be null. */
  datatype ContactItem = ContactItem(link: Option<string>)

  /** What the list needs of a task: whether its status is an end-user
      status, and its contacts. */
  datatype Task = Task(endUserStatus: bool, contacts: seq<ContactItem>)

  /** The case-insensitive links present in a list. */
  function Support(s: seq<string>): set<string> {
    set k | k in Keys(s)
  }

  /** How many entries of s equal k ignoring case. */
  function Occurrences(s: seq<string>, k: string): nat {
    multiset(Keys(s))[k]
  }

  /** Strictly ascending ignoring case, hence no two entries equal ignoring case. */
  predicate SortedByKey(s: seq<string>) {
    forall i, j :: 0 <= i < j < |s| ==> Less(Lower(s[i]), Lower(s[j]))
  }

  /** The number of entries of s ordered before k. */
  function Rank(s: seq<string>, k: string): (r: nat)
    ensures r <= |s|
  {
    if s == [] then 0
    else (if Less(Lower(s[0]), k) then 1 else 0) + Rank(s[1..], k)
  }

  /** In a sorted list the entries before k are exactly its first Rank entries. */
  lemma {:induction false} RankSplits(s: seq<string>, k: string)
    requires SortedByKey(s)
    ensures Rank(s, k) <= |s|
    ensures forall i :: 0 <= i < Rank(s, k) ==> Less(Lower(s[i]), k)
    ensures forall i :: Rank(s, k) <= i < |s| ==> !Less(Lower(s[i]), k)
  {
    if s != [] {
      RankSplits(s[1..], k);
      if !Less(Lower(s[0]), k) {
        assert Rank(s[1..], k) == 0 by {
          if Rank(s[1..], k) > 0 {
            LessTransitive(Lower(s[0]), Lower(s[1]), k);
          }
        }
      }
    }
  }

  /** TreeSet.add of a link whose key is not yet present: it goes in at its rank. */
  function Insert(s: seq<string>, x: string): (r: seq<string>)
    requires Rank(s, Lower(x)) <= |s|
  {
    var p := Rank(s, Lower(x));
    s[..p] + [x] + s[p..]
  }

  /** The keys of Insert(s, x): those of s with x's key at its rank. */
  lemma InsertKeys(s: seq<string>, x: string)
    requires Rank(s, Lower(x)) <= |s|
    ensures Support(Insert(s, x)) == Support(s) + {Lower(x)}
    ensures Insert(s, x)[Rank(s, Lower(x))] == x
  {
    var k := Lower(x);
    var p := Rank(s, k);
    var t := Insert(s, x);
    assert Keys(t) == Keys(s)[..p] + [k] + Keys(s)[p..];
    assert Keys(s) == Keys(s)[..p] + Keys(s)[p..];
    forall y ensures y in Keys(t) <==> y in Keys(s) || y == k {
      assert y in Keys(s) <==> y in Keys(s)[..p] || y in Keys(s)[p..];
    }
  }

  /** A sequence made of a sorted prefix below k, then k, then a sorted
      suffix above k, is sorted. */
  lemma SortedAround(s: seq<string>, t: seq<string>, p: nat, k: string)
    requires SortedByKey(s) && p <= |s| && |t| == |s| + 1
    requires Lower(t[p]) == k
    requires forall i :: 0 <= i < p ==> t[i] == s[i] && Less(Lower(s[i]), k)
    requires forall i :: p < i < |t| ==> t[i] == s[i - 1] && Less(k, Lower(s[i - 1]))
    ensures SortedByKey(t)
  {
    forall i, j | 0 <= i < j < |t| ensures Less(Lower(t[i]), Lower(t[j])) {
      if i < p && j > p {
        LessTransitive(Lower(t[i]), k, Lower(t[j]));
      } else if j < p {
        assert Less(Lower(s[i]), Lower(s[j]));
      } else if i > p {
        assert Less(Lower(s[i - 1]), Lower(s[j - 1]));
      }
    }
  }

  /** Inserting a new link at its rank keeps the set sorted. */
  lemma InsertOrdered(s: seq<string>, x: string)
    requires SortedByKey(s) && Lower(x) !in Keys(s)
    ensures Rank(s, Lower(x)) <= |s|
    ensures SortedByKey(Insert(s, x))
  {
    var k := Lower(x);
    RankSplits(s, k);
    var p := Rank(s, k);
    var t := Insert(s, x);
    forall i | p <= i < |s| ensures Less(k, Lower(s[i])) {
      assert Lower(s[i]) == Keys(s)[i];
      LessTotal(k, Lower(s[i]));
    }
    SortedAround(s, t, p, k);
  }

  /** Inserting a new link keeps the set sorted and adds exactly its key. */
  lemma InsertSorted(s: seq<string>, x: string)
    requires SortedByKey(s) && Lower(x) !in Support(s)
    ensures Rank(s, Lower(x)) <= |s|
    ensures SortedByKey(Insert(s, x))
    ensures Support(Insert(s, x)) == Support(s) + {Lower(x)}
    ensures Insert(s, x)[Rank(s, Lower(x))] == x
  {
    InsertOrdered(s, x);
    InsertKeys(s, x);
  }

  /** Dropping one entry keeps a sorted list sorted. */
  lemma SortedRemoveAt(s: seq<string>, p: nat)
    requires SortedByKey(s) && p < |s|
    ensures SortedByKey(s[..p] + s[p + 1..])
  {
    var t := s[..p] + s[p + 1..];
    assert forall i :: 0 <= i < p ==> t[i] == s[i];
    assert forall i :: p <= i < |t| ==> t[i] == s[i + 1];
    forall i, j | 0 <= i < j < |t| ensures Less(Lower(t[i]), Lower(t[j])) {
      var i' := if i < p then i else i + 1;
      var j' := if j < p then j else j + 1;
      assert Less(Lower(s[i']), Lower(s[j']));
    }
  }

  /** A sorted list holds each key at most once. */
  lemma SortedKeysDistinct(s: seq<string>)
    requires SortedByKey(s)
    ensures NoDuplicates(Keys(s))
  {
    forall i, j | 0 <= i < j < |s| ensures Keys(s)[i] != Keys(s)[j] {
      LessIrreflexive(Lower(s[i]));
    }
  }

  lemma RemoveFromSortedOrder(s: seq<string>, x: string)
    requires SortedByKey(s)
    ensures SortedByKey(RemoveFirstIgnoreCase(s, x))
  {
    var p := IndexOfIgnoreCase(s, x);
    if p >= 0 {
      assert RemoveFirstIgnoreCase(s, x) == s[..p] + s[p + 1..];
      SortedRemoveAt(s, p);
    } else {
      assert RemoveFirstIgnoreCase(s, x) == s;
    }
  }

  lemma RemoveFromSortedKeys(s: seq<string>, x: string)
    requires SortedByKey(s)
    ensures Support(RemoveFirstIgnoreCase(s, x)) == Support(s) - {Lower(x)}
  {
    SortedKeysDistinct(s);
    RemoveFirstKeepsNoDuplicates(Keys(s), Lower(x));
    SupportAfterRemove(s, x);
  }

  /** Removing the entry with key k from a sorted set keeps it sorted and
      drops exactly k. */
  lemma RemoveFromSorted(s: seq<string>, x: string)
    requires SortedByKey(s)
    ensures SortedByKey(RemoveFirstIgnoreCase(s, x))
    ensures Support(RemoveFirstIgnoreCase(s, x)) == Support(s) - {Lower(x)}
  {
    RemoveFromSortedOrder(s, x);
    RemoveFromSortedKeys(s, x);
  }

  /** The observable state: the occurrence list, the sorted set and the
      events fired so far. */
  datatype LinkState = LinkState(links: seq<string>, sorted: seq<string>, events: seq<ListEvent>)

  /** The sorted set is the sorted, duplicate-free support of the list. */
  predicate Inv(st: LinkState) {
    SortedByKey(st.sorted) && Support(st.sorted) == Support(st.links)
  }

  /** addLink. */
  function AddSpec(st: LinkState, link: Option<string>): LinkState
    requires Inv(st)
  {
    match link
    case None => st
    case Some(l) =>
      var k := Lower(l);
      if k in Support(st.sorted) then st.(links := st.links + [l])
      else
        RankSplits(st.sorted, k);
        LinkState(st.links + [l], Insert(st.sorted, l),
                  st.events + [ListEvent(VALUE_ADDED, Rank(st.sorted, k), l)])
  }

  /** removeLink. */
  function RemoveSpec(st: LinkState, link: Option<string>): LinkState {
    match link
    case None => st
    case Some(l) =>
      var k := Lower(l);
      var links' := RemoveFirstIgnoreCase(st.links, l);
      if k !in Support(links') && k in Support(st.sorted) then
        LinkState(links', RemoveFirstIgnoreCase(st.sorted, l),
                  st.events + [ListEvent(VALUE_REMOVED, -1, l)])
      else st.(links := links')
  }

  lemma SupportAppend(s: seq<string>, x: string)
    ensures Support(s + [x]) == Support(s) + {Lower(x)}
    ensures multiset(Keys(s + [x])) == multiset(Keys(s)) + multiset{Lower(x)}
  {
    KeysAppend(s, [x]);
    assert Keys([x]) == [Lower(x)];
  }

  lemma SupportConcat(a: seq<string>, b: seq<string>)
    ensures Support(a + b) == Support(a) + Support(b)
  {
    KeysAppend(a, b);
  }

  /** After removing one occurrence of k, the other keys are unchanged and k
      stays exactly when it occurred more than once. */
  lemma SupportAfterRemove(s: seq<string>, x: string)
    ensures Support(RemoveFirstIgnoreCase(s, x)) - {Lower(x)} == Support(s) - {Lower(x)}
    ensures Lower(x) in Support(RemoveFirstIgnoreCase(s, x)) <==> Occurrences(s, Lower(x)) > 1
    ensures Lower(x) in Support(RemoveFirstIgnoreCase(s, x)) ==> Lower(x) in Support(s)
  {
    var t := RemoveFirstIgnoreCase(s, x);
    forall y ensures y in Support(t) <==> (y != Lower(x) && y in Support(s)) || (y == Lower(x) && Occurrences(s, y) > 1) {
      RemoveFirstMembership(Keys(s), Lower(x), y);
    }
  }

  /** addLink keeps the sorted set equal to the support of the list, and adds
      one occurrence of the link to the list. */
  lemma AddKeepsInv(st: LinkState, l: string)
    requires Inv(st)
    ensures Inv(AddSpec(st, Some(l)))
    ensures multiset(Keys(AddSpec(st, Some(l)).links)) == multiset(Keys(st.links)) + multiset{Lower(l)}
  {
    SupportAppend(st.links, l);
    if Lower(l) !in Support(st.sorted) {
      InsertSorted(st.sorted, l);
    }
  }

  /** removeLink keeps the sorted set equal to the support of the list, and
      removes one occurrence of the link from the list. */
  lemma RemoveKeepsInv(st: LinkState, l: string)
    requires Inv(st)
    ensures Inv(RemoveSpec(st, Some(l)))
    ensures multiset(Keys(RemoveSpec(st, Some(l)).links)) == multiset(Keys(st.links)) - multiset{Lower(l)}
  {
    var k := Lower(l);
    var links' := RemoveFirstIgnoreCase(st.links, l);
    SupportAfterRemove(st.links, l);
    if k !in Support(links') && k in Support(st.sorted) {
      RemoveLastKeepsInv(st, l);
    } else {
      RemoveOtherKeepsSupport(st.links, l);
      assert RemoveSpec(st, Some(l)) == st.(links := links');
    }
  }

  /** One end-user task during initialize: its links are appended and the
      whole list is added to the sorted set again. */
  lemma InitStepKeepsInv(links: seq<string>, sorted: seq<string>, added: seq<string>)
    requires SortedByKey(sorted) && Support(sorted) == Support(links)
    ensures Inv(LinkState(links + added, InsertAll(sorted, links + added), []))
  {
    SupportConcat(links, added);
    AbsorbUnion(Support(sorted), Support(links), Support(added));
  }

  lemma AbsorbUnion<T>(S: set<T>, L: set<T>, E: set<T>)
    requires S == L
    ensures S + (L + E) == L + E
  {
  }

  /** Set algebra for removal: the sets agree off k, and agree on k. */
  lemma SameOffAndOn<T>(A: set<T>, B: set<T>, k: T)
    requires A - {k} == B - {k}
    requires k in A <==> k in B
    ensures A == B
  {
    if k in A {
      assert A == (A - {k}) + {k};
      assert B == (B - {k}) + {k};
    } else {
      assert A == A - {k} && B == B - {k};
    }
  }

  /** The last occurrence goes: the sorted set loses the key too. */
  lemma RemoveLastKeepsInv(st: LinkState, l: string)
    requires Inv(st)
    requires Lower(l) !in Support(RemoveFirstIgnoreCase(st.links, l))
    ensures Inv(LinkState(RemoveFirstIgnoreCase(st.links, l), RemoveFirstIgnoreCase(st.sorted, l), st.events + [ListEvent(VALUE_REMOVED, -1, l)]))
  {
    var k := Lower(l);
    SupportAfterRemove(st.links, l);
    RemoveFromSorted(st.sorted, l);
    LastGone(Support(st.sorted), Support(st.links), Support(RemoveFirstIgnoreCase(st.sorted, l)),
             Support(RemoveFirstIgnoreCase(st.links, l)), k);
  }

  lemma LastGone<T>(S: set<T>, L: set<T>, S': set<T>, L': set<T>, k: T)
    requires S == L && S' == S - {k} && L' - {k} == L - {k} && k !in L'
    ensures S' == L'
  {
    assert L' == L' - {k};
  }

  /** Removing an occurrence that is not the last one, or of an absent key,
      leaves the support unchanged. */
  lemma RemoveOtherKeepsSupport(s: seq<string>, l: string)
    requires Lower(l) in Support(RemoveFirstIgnoreCase(s, l)) || Lower(l) !in Support(s)
    ensures Support(RemoveFirstIgnoreCase(s, l)) == Support(s)
  {
    SupportAfterRemove(s, l);
    SameOffAndOn(Support(RemoveFirstIgnoreCase(s, l)), Support(s), Lower(l));
  }

  /** VALUE_ADDED fires exactly when no link equal ignoring case was present,
      and its index is the link's rank: every link before it in the sorted
      set is smaller and every link after it is larger. */
  lemma AddFiresOnFirstOccurrence(st: LinkState, l: string)
    requires Inv(st)
    ensures var st' := AddSpec(st, Some(l));
      && (st'.events != st.events <==> Lower(l) !in Support(st.links))
      && (st'.events != st.events ==>
            exists r ::
              && 0 <= r < |st'.sorted|
              && st'.events == st.events + [ListEvent(VALUE_ADDED, r, l)]
              && st'.sorted[r] == l
              && (forall i :: 0 <= i < r ==> Less(Lower(st'.sorted[i]), Lower(l)))
              && (forall i :: r < i < |st'.sorted| ==> Less(Lower(l), Lower(st'.sorted[i]))))
  {
    var k := Lower(l);
    var st' := AddSpec(st, Some(l));
    if k !in Support(st.sorted) {
      InsertSorted(st.sorted, l);
      var r := Rank(st.sorted, k);
      assert st'.sorted[r] == l;
      forall i | 0 <= i < r ensures Less(Lower(st'.sorted[i]), k) {
        assert Less(Lower(st'.sorted[i]), Lower(st'.sorted[r]));
      }
      forall i | r < i < |st'.sorted| ensures Less(k, Lower(st'.sorted[i])) {
        assert Less(Lower(st'.sorted[r]), Lower(st'.sorted[i]));
      }
    }
  }

  /** VALUE_REMOVED fires exactly when the removed occurrence was the last
      one, and always with index -1. */
  lemma RemoveFiresOnLastOccurrence(st: LinkState, l: string)
    requires Inv(st)
    ensures var st' := RemoveSpec(st, Some(l));
      && (st'.events != st.events <==> Occurrences(st.links, Lower(l)) == 1)
      && (st'.events != st.events ==>
            st'.events == st.events + [ListEvent(VALUE_REMOVED, -1, l)])
  {
    SupportAfterRemove(st.links, l);
    var k := Lower(l);
    assert k in Support(st.links) <==> Occurrences(st.links, k) > 0;
  }

  /** Removing a link that is not present changes nothing. */
  lemma RemoveAbsentIsNoop(st: LinkState, l: string)
    requires Inv(st) && Lower(l) !in Support(st.links)
    ensures RemoveSpec(st, Some(l)) == st
  {
    assert Lower(l) !in Keys(st.links);
  }

  /** Removing a link just inserted at its rank gives back the sorted set. */
  lemma RemoveInserted(s: seq<string>, x: string)
    requires SortedByKey(s) && Lower(x) !in Support(s)
    ensures Rank(s, Lower(x)) <= |s|
    ensures RemoveFirstIgnoreCase(Insert(s, x), x) == s
  {
    var p := Rank(s, Lower(x));
    var t := Insert(s, x);
    InsertFoundAtRank(s, x);
    assert t[..p] == s[..p] && t[p + 1..] == s[p..];
    assert s == s[..p] + s[p..];
  }

  /** A link inserted at its rank is the first entry with its key. */
  lemma InsertFoundAtRank(s: seq<string>, x: string)
    requires SortedByKey(s)
    ensures Rank(s, Lower(x)) <= |s|
    ensures IndexOfIgnoreCase(Insert(s, x), x) == Rank(s, Lower(x))
  {
    var k := Lower(x);
    RankSplits(s, k);
    var p := Rank(s, k);
    var t := Insert(s, x);
    assert k !in Keys(t)[..p] by {
      forall i | 0 <= i < p ensures Keys(t)[..p][i] != k {
        assert t[i] == s[i];
        LessIrreflexive(k);
      }
    }
    assert Keys(t)[p] == k;
    IndexOfAt(Keys(t), k, p);
  }

  /** Adding then removing the same link restores the sorted set and the
      multiset of links (ignoring case). */
  lemma AddThenRemoveRestores(st: LinkState, l: string)
    requires Inv(st)
    ensures var st1 := AddSpec(st, Some(l));
      Inv(st1) &&
      var st2 := RemoveSpec(st1, Some(l));
      && st2.sorted == st.sorted
      && multiset(Keys(st2.links)) == multiset(Keys(st.links))
  {
    AddKeepsInv(st, l);
    RemoveKeepsInv(AddSpec(st, Some(l)), l);
    if Lower(l) in Support(st.sorted) {
      AddThenRemovePresent(st, l);
    } else {
      AddThenRemoveAbsent(st, l);
    }
  }

  lemma AddThenRemovePresent(st: LinkState, l: string)
    requires Inv(st) && Lower(l) in Support(st.sorted)
    ensures RemoveSpec(AddSpec(st, Some(l)), Some(l)).sorted == st.sorted
  {
    var k := Lower(l);
    var links1 := st.links + [l];
    SupportAppend(st.links, l);
    assert Occurrences(st.links, k) > 0;
    SupportAfterRemove(links1, l);
  }

  lemma AddThenRemoveAbsent(st: LinkState, l: string)
    requires Inv(st) && Lower(l) !in Support(st.sorted)
    ensures RemoveSpec(AddSpec(st, Some(l)), Some(l)).sorted == st.sorted
  {
    var k := Lower(l);
    var links1 := st.links + [l];
    SupportAppend(st.links, l);
    assert Occurrences(st.links, k) == 0;
    SupportAfterRemove(links1, l);
    InsertKeys(st.sorted, l);
    RemoveInserted(st.sorted, l);
    var st1 := AddSpec(st, Some(l));
    assert st1.links == links1 && st1.sorted == Insert(st.sorted, l);
    assert k !in Support(RemoveFirstIgnoreCase(links1, l));
    assert k in Support(st1.sorted);
  }

  /** addLink for every contact of a task, in order. */
  function AddAllSpec(st: LinkState, contacts: seq<ContactItem>): (r: LinkState)
    requires Inv(st)
    ensures Inv(r)
    decreases |contacts|
  {
    if contacts == [] then st
    else
      var last := contacts[|contacts| - 1];
      var mid := AddAllSpec(st, contacts[..|contacts| - 1]);
      match last.link
      case None => mid
      case Some(l) => AddKeepsInv(mid, l); AddSpec(mid, last.link)
  }

  /** removeLink for every contact of a task, in order. */
  function RemoveAllSpec(st: LinkState, contacts: seq<ContactItem>): (r: LinkState)
    requires Inv(st)
    ensures Inv(r)
    decreases |contacts|
  {
    if contacts == [] then st
    else
      var last := contacts[|contacts| - 1];
      var mid := RemoveAllSpec(st, contacts[..|contacts| - 1]);
      match last.link
      case None => mid
      case Some(l) => RemoveKeepsInv(mid, l); RemoveSpec(mid, last.link)
  }

  /** The non-null links of a task's contacts (getLinks(ContactList)). */
  function NonNullLinks(contacts: seq<ContactItem>): seq<string> {
    if contacts == [] then []
    else
      var rest := NonNullLinks(contacts[..|contacts| - 1]);
      match contacts[|contacts| - 1].link
      case Some(l) => rest + [l]
      case None => rest
  }

  /** A contact's link is listed exactly when the contact has a non-null link. */
  lemma {:induction false} NonNullLinksMembership(contacts: seq<ContactItem>, l: string)
    ensures l in NonNullLinks(contacts) <==> ContactItem(Some(l)) in contacts
    decreases |contacts|
  {
    if contacts != [] {
      var init := contacts[..|contacts| - 1];
      NonNullLinksMembership(init, l);
      assert contacts == init + [contacts[|contacts| - 1]];
    }
  }

  /** The links of every end-user task, task by task (what initialize collects). */
  function EndUserLinks(tasks: seq<Task>): seq<string> {
    if tasks == [] then []
    else
      var last := tasks[|tasks| - 1];
      EndUserLinks(tasks[..|tasks| - 1]) + (if last.endUserStatus then NonNullLinks(last.contacts) else [])
  }

  /** A link is collected exactly when some end-user task has a contact with it. */
  lemma {:induction false} EndUserLinksMembership(tasks: seq<Task>, l: string)
    ensures l in EndUserLinks(tasks) <==>
      exists t :: t in tasks && t.endUserStatus && ContactItem(Some(l)) in t.contacts
    decreases |tasks|
  {
    if tasks != [] {
      var init, last := tasks[..|tasks| - 1], tasks[|tasks| - 1];
      EndUserLinksMembership(init, l);
      NonNullLinksMembership(last.contacts, l);
      assert tasks == init + [last];
      if l in EndUserLinks(tasks) && l !in EndUserLinks(init) {
        assert last in tasks;
      }
    }
  }

  /** TreeSet.addAll: adds the links whose key is not yet present, keeping
      the representative already there. */
  function InsertAll(s: seq<string>, xs: seq<string>): (r: seq<string>)
    requires SortedByKey(s)
    ensures SortedByKey(r)
    ensures Support(r) == Support(s) + Support(xs)
    decreases |xs|
  {
    if xs == [] then s
    else
      var x := xs[|xs| - 1];
      var mid := InsertAll(s, xs[..|xs| - 1]);
      assert xs == xs[..|xs| - 1] + [x];
      SupportAppend(xs[..|xs| - 1], x);
      if Lower(x) in Support(mid) then mid
      else
        InsertSorted(mid, x);
        Insert(mid, x)
  }

  /** A renamed contact link: removed under the old value, added under the new. */
  function RenameSpec(st: LinkState, oldLink: Option<string>, newLink: Option<string>): (r: LinkState)
    requires Inv(st)
    ensures Inv(r)
  {
    match oldLink
    case None => AddKeepsInv0(st, newLink); AddSpec(st, newLink)
    case Some(o) =>
      RemoveKeepsInv(st, o);
      var mid := RemoveSpec(st, oldLink);
      AddKeepsInv0(mid, newLink);
      AddSpec(mid, newLink)
  }

  lemma AddKeepsInv0(st: LinkState, link: Option<string>)
    requires Inv(st)
    ensures Inv(AddSpec(st, link))
  {
    if link.Some? {
      AddKeepsInv(st, link.value);
    }
  }

  /** A property change seen by the list. */
  datatype PropertyChange =
    | ModelStatusChanged(task: Task, oldEndUser: bool, newEndUser: bool)
    | LinkChanged(oldLink: Option<string>, newLink: Option<string>)
    | OtherProperty

  /** The value carried by a list change seen by the list. */
  datatype ChangedValue =
    | TaskValue(task: Task)
    | ContactValue(item: ContactItem)
    | OtherValue

  class TaskContactLinkList {
    var links: seq<string>
    var sorted: seq<string>
    var events: seq<ListEvent>

    ghost function State(): LinkState
      reads this
    {
      LinkState(links, sorted, events)
    }

    ghost predicate Valid()
      reads this
    {
      Inv(State())
    }

    /** initialize: the links of every end-user task, without firing events. */
    constructor (tasks: seq<Task>)
      ensures Valid()
      ensures events == []
      ensures links == EndUserLinks(tasks)
    {
      links, sorted, events := [], [], [];
      new;
      var i := 0;
      while i < |tasks|
        invariant 0 <= i <= |tasks|
        invariant Valid() && events == []
        invariant links == EndUserLinks(tasks[..i])
      {
        var task := tasks[i];
        assert tasks[..i + 1][..i] == tasks[..i];
        if task.endUserStatus {
          var added := NonNullLinks(task.contacts);
          InitStepKeepsInv(links, sorted, added);
          links := links + added;
          sorted := InsertAll(sorted, links);
        }
        i := i + 1;
      }
      assert tasks[..i] == tasks;
    }

    /** getLinks(): every distinct link once, in ascending order. */
    method GetLinks() returns (r: seq<string>)
      requires Valid()
      ensures SortedByKey(r)
      ensures Support(r) == Support(links)
      ensures r == sorted
    {
      r := [];
      var i := 0;
      while i < |sorted|
        invariant 0 <= i <= |sorted|
        invariant r == sorted[..i]
      {
        r := r + [sorted[i]];
        i := i + 1;
      }
      assert sorted[..i] == sorted;
    }

    /** addLink. */
    method AddLink(link: Option<string>)
      requires Valid()
      modifies this
      ensures Valid()
      ensures State() == AddSpec(old(State()), link)
    {
      if link.None? {
        return;
      }
      var l := link.value;
      var k := Lower(l);
      ghost var st := State();
      AddKeepsInv(st, l);
      links := links + [l];
      if k !in Support(sorted) {
        ghost var before := sorted;
        InsertSorted(before, l);
        RankSplits(before, k);
        sorted := Insert(sorted, l);
        var index := 0;
        while index < |sorted|
          invariant 0 <= index <= Rank(before, k)
        {
          if Lower(sorted[index]) == k {
            break;
          }
          assert index != Rank(before, k);
          index := index + 1;
        }
        assert index == Rank(before, k) by {
          if index < Rank(before, k) {
            assert sorted[index] == before[index];
            LessIrreflexive(k);
          }
        }
        events := events + [ListEvent(VALUE_ADDED, index, l)];
      }
    }

    /** removeLink. */
    method RemoveLink(link: Option<string>)
      requires Valid()
      modifies this
      ensures Valid()
      ensures State() == RemoveSpec(old(State()), link)
    {
      if link.None? {
        return;
      }
      var l := link.value;
      RemoveKeepsInv(State(), l);
      links := RemoveFirstIgnoreCase(links, l);
      if Lower(l) !in Support(links) {
        if Lower(l) in Support(sorted) {
          sorted := RemoveFirstIgnoreCase(sorted, l);
          events := events + [ListEvent(VALUE_REMOVED, -1, l)];
        }
      }
    }

    /** addLinks(ContactList). */
    method AddLinks(contacts: seq<ContactItem>)
      requires Valid()
      modifies this
      ensures Valid()
      ensures State() == AddAllSpec(old(State()), contacts)
    {
      var i := 0;
      while i < |contacts|
        invariant 0 <= i <= |contacts|
        invariant Valid()
        invariant State() == AddAllSpec(old(State()), contacts[..i])
      {
        assert contacts[..i + 1][..i] == contacts[..i];
        AddLink(contacts[i].link);
        i := i + 1;
      }
      assert contacts[..i] == contacts;
    }

    /** removeLinks(ContactList). */
    method RemoveLinks(contacts: seq<ContactItem>)
      requires Valid()
      modifies this
      ensures Valid()
      ensures State() == RemoveAllSpec(old(State()), contacts)
    {
      var i := 0;
      while i < |contacts|
        invariant 0 <= i <= |contacts|
        invariant Valid()
        invariant State() == RemoveAllSpec(old(State()), contacts[..i])
      {
        assert contacts[..i + 1][..i] == contacts[..i];
        RemoveLink(contacts[i].link);
        i := i + 1;
      }
      assert contacts[..i] == contacts;
    }

    /** listChange: a task added with an end-user status brings its links, a
        task removed takes its links away, and a contact added or removed
        brings or takes its one link. */
    method ListChange(changeType: ChangeType, value: ChangedValue)
      requires Valid()
      modifies this
      ensures Valid()
      ensures State() == match value
        case TaskValue(task) =>
          if changeType == VALUE_ADDED then
            (if task.endUserStatus then AddAllSpec(old(State()), task.contacts) else old(State()))
          else if changeType == VALUE_REMOVED then RemoveAllSpec(old(State()), task.contacts)
          else old(State())
        case ContactValue(item) =>
          if changeType == VALUE_ADDED then AddSpec(old(State()), item.link)
          else if changeType == VALUE_REMOVED then RemoveSpec(old(State()), item.link)
          else old(State())
        case OtherValue => old(State())
    {
      match value {
        case TaskValue(task) =>
          if changeType == VALUE_ADDED {
            if task.endUserStatus {
              AddLinks(task.contacts);
            }
          }
          if changeType == VALUE_REMOVED {
            RemoveLinks(task.contacts);
          }
        case ContactValue(item) =>
          if changeType == VALUE_ADDED {
            AddLink(item.link);
          }
          if changeType == VALUE_REMOVED {
            RemoveLink(item.link);
          }
        case OtherValue =>
      }
    }

    /** propertyChange: a task entering an end-user status adds its links, one
        leaving it removes them, and a renamed link is removed under its old
        value and added under its new one. */
    method PropertyChange(change: PropertyChange)
      requires Valid()
      modifies this
      ensures Valid()
      ensures State() == match change
        case ModelStatusChanged(task, o, n) =>
          if !o && n then AddAllSpec(old(State()), task.contacts)
          else if o && !n then RemoveAllSpec(old(State()), task.contacts)
          else old(State())
        case LinkChanged(oldLink, newLink) =>
          RenameSpec(old(State()), oldLink, newLink)
        case OtherProperty => old(State())
    {
      match change {
        case ModelStatusChanged(task, o, n) =>
          if !o && n {
            AddLinks(task.contacts);
          } else if o && !n {
            RemoveLinks(task.contacts);
          }
        case LinkChanged(oldLink, newLink) =>
          RemoveLink(oldLink);
          AddLink(newLink);
        case OtherProperty =>
      }
    }
  }
}
