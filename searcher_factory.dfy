/** TaskSearcherFactory (package gui.searchers): the application-wide
    registry of searchers. Searchers are objects compared by identity; the
    registry is a list that may hold the same searcher twice, while its two
    listener lists never do. Registering and unregistering fire list changes
    carrying the index concerned. */
module SearcherFactory {
  import opened Common
  import opened SearcherTypes

  /** A searcher: an object with a title, a filter and a sorter. */
  class TaskSearcher {
    const title: string
    const filter: TaskFilter
    const sorter: TaskSorter

    constructor (title: string, filter: TaskFilter, sorter: TaskSorter)
      ensures this.title == title && this.filter == filter && this.sorter == sorter
    {
      this.title, this.filter, this.sorter := title, filter, sorter;
    }
  }

  /** A registered listener; only its identity matters. */
  class Listener {
    constructor () {}
  }


  /** A fired list change: type, index and searcher. */
  datatype RegistryEvent = RegistryEvent(changeType: ChangeType, index: int, searcher: TaskSearcher)

  /** The index register reports: the first position of the searcher once
      it has been appended. */
  lemma {:induction false} RegisterIndex<T>(s: seq<T>, x: T)
    ensures IndexOf(s + [x], x) == if x in s then IndexOf(s, x) else |s|
    decreases |s|
  {
    if s != [] && s[0] != x {
      RegisterIndex(s[1..], x);
      assert (s + [x])[1..] == s[1..] + [x];
    }
  }

  /** Unregistering what was just registered (and was not there before)
      gives back the list. */
  lemma UnregisterAfterRegister<T>(s: seq<T>, x: T)
    ensures multiset(RemoveFirst(s + [x], x)) == multiset(s)
    ensures x !in s ==> RemoveFirst(s + [x], x) == s
  {
    RegisterIndex(s, x);
  }

  /** The events deleteAll fires for a snapshot: one removal per entry, each
      at index 0 since the snapshot is emptied from the front. */
  function RemovalEvents(s: seq<TaskSearcher>): (r: seq<RegistryEvent>)
    ensures |r| == |s|
    ensures forall i :: 0 <= i < |s| ==> r[i] == RegistryEvent(VALUE_REMOVED, 0, s[i])
  {
    seq(|s|, i requires 0 <= i < |s| => RegistryEvent(VALUE_REMOVED, 0, s[i]))
  }

  class TaskSearcherFactory {
    var searchers: seq<TaskSearcher>
    var listChangeListeners: seq<Listener>
    var propertyChangeListeners: seq<Listener>
    var events: seq<RegistryEvent>

    ghost predicate Valid()
      reads this
    {
      NoDuplicates(listChangeListeners) && NoDuplicates(propertyChangeListeners)
    }

    constructor ()
      ensures Valid()
      ensures searchers == [] && listChangeListeners == [] && propertyChangeListeners == [] && events == []
    {
      searchers, listChangeListeners, propertyChangeListeners, events := [], [], [], [];
    }

    /** size(). */
    method Size() returns (n: nat)
      ensures n == |searchers|
    {
      n := |searchers|;
    }

    /** getIndexOf: the first position of the searcher, or -1 when absent;
        null is never registered, so it is always absent. */
    method GetIndexOf(searcher: Option<TaskSearcher>) returns (index: int)
      ensures -1 <= index < |searchers|
      ensures searcher.None? ==> index == -1
      ensures searcher.Some? ==> (index == -1 <==> searcher.value !in searchers)
      ensures index >= 0 ==> searcher.Some? && searchers[index] == searcher.value && searcher.value !in searchers[..index]
    {
      if searcher.None? {
        return -1;
      }
      index := IndexOf(searchers, searcher.value);
    }

    /** register: rejects null, appends, and reports the searcher's first
        position. */
    method Register(searcher: Option<TaskSearcher>) returns (outcome: Outcome)
      requires Valid()
      modifies this
      ensures Valid()
      ensures unchanged(this`listChangeListeners) && unchanged(this`propertyChangeListeners)
      ensures searcher.None? ==> outcome == Thrown(NullArgument) && unchanged(this)
      ensures searcher.Some? ==>
        && outcome == Ok
        && searchers == old(searchers) + [searcher.value]
        && events == old(events) + [RegistryEvent(VALUE_ADDED, IndexOf(searchers, searcher.value), searcher.value)]
    {
      if searcher.None? {
        return Thrown(NullArgument);
      }
      var s := searcher.value;
      searchers := searchers + [s];
      var index := IndexOf(searchers, s);
      events := events + [RegistryEvent(VALUE_ADDED, index, s)];
      outcome := Ok;
    }

    /** unregister: rejects null, removes the first occurrence only, and
        reports the index that occurrence had; an absent searcher changes
        nothing. */
    method Unregister(searcher: Option<TaskSearcher>) returns (outcome: Outcome)
      requires Valid()
      modifies this
      ensures Valid()
      ensures unchanged(this`listChangeListeners) && unchanged(this`propertyChangeListeners)
      ensures searcher.None? ==> outcome == Thrown(NullArgument) && unchanged(this)
      ensures searcher.Some? ==>
        && outcome == Ok
        && searchers == RemoveFirst(old(searchers), searcher.value)
        && events == old(events) +
             (if searcher.value in old(searchers)
              then [RegistryEvent(VALUE_REMOVED, IndexOf(old(searchers), searcher.value), searcher.value)]
              else [])
    {
      if searcher.None? {
        return Thrown(NullArgument);
      }
      var s := searcher.value;
      var index := IndexOf(searchers, s);
      if s in searchers {
        searchers := RemoveFirst(searchers, s);
        events := events + [RegistryEvent(VALUE_REMOVED, index, s)];
      }
      outcome := Ok;
    }

    /** delete: the same as unregister. */
    method Delete(searcher: Option<TaskSearcher>) returns (outcome: Outcome)
      requires Valid()
      modifies this
      ensures Valid()
      ensures unchanged(this`listChangeListeners) && unchanged(this`propertyChangeListeners)
      ensures searcher.None? ==> outcome == Thrown(NullArgument) && unchanged(this)
      ensures searcher.Some? ==>
        && outcome == Ok
        && searchers == RemoveFirst(old(searchers), searcher.value)
        && events == old(events) +
             (if searcher.value in old(searchers)
              then [RegistryEvent(VALUE_REMOVED, IndexOf(old(searchers), searcher.value), searcher.value)]
              else [])
    {
      outcome := Unregister(searcher);
    }

    /** deleteAll: unregisters every entry of a snapshot, front to back, so
        the registry ends empty after one removal event per entry. */
    method DeleteAll()
      requires Valid()
      modifies this
      ensures Valid()
      ensures unchanged(this`listChangeListeners) && unchanged(this`propertyChangeListeners)
      ensures searchers == []
      ensures events == old(events) + RemovalEvents(old(searchers))
    {
      var snapshot := searchers;
      var i := 0;
      while i < |snapshot|
        invariant 0 <= i <= |snapshot|
        invariant Valid()
        invariant unchanged(this`listChangeListeners) && unchanged(this`propertyChangeListeners)
        invariant searchers == snapshot[i..]
        invariant events == old(events) + RemovalEvents(snapshot[..i])
      {
        assert searchers[0] == snapshot[i];
        IndexOfAt(searchers, snapshot[i], 0);
        assert searchers[1..] == snapshot[i + 1..];
        assert snapshot[..i + 1] == snapshot[..i] + [snapshot[i]];
        assert RemovalEvents(snapshot[..i + 1]) ==
               RemovalEvents(snapshot[..i]) + [RegistryEvent(VALUE_REMOVED, 0, snapshot[i])];
        var _ := Unregister(Some(snapshot[i]));
        i := i + 1;
      }
      assert snapshot[..i] == snapshot;
    }

    /** create: a new searcher, registered at the end of the list. */
    method Create(title: string, filter: TaskFilter, sorter: TaskSorter) returns (searcher: TaskSearcher)
      requires Valid()
      modifies this
      ensures Valid()
      ensures fresh(searcher)
      ensures searcher.title == title && searcher.filter == filter && searcher.sorter == sorter
      ensures unchanged(this`listChangeListeners) && unchanged(this`propertyChangeListeners)
      ensures searchers == old(searchers) + [searcher]
      ensures events == old(events) + [RegistryEvent(VALUE_ADDED, |old(searchers)|, searcher)]
    {
      searcher := new TaskSearcher(title, filter, sorter);
      RegisterIndex(searchers, searcher);
      var _ := Register(Some(searcher));
    }

    /** addListChangeListener: rejects null and ignores a listener already
        present. */
    method AddListChangeListener(listener: Option<Listener>) returns (outcome: Outcome)
      requires Valid()
      modifies this
      ensures Valid()
      ensures unchanged(this`searchers) && unchanged(this`events) && unchanged(this`propertyChangeListeners)
      ensures listener.None? ==> outcome == Thrown(NullArgument) && unchanged(this)
      ensures listener.Some? ==> outcome == Ok && listChangeListeners == AddIfAbsent(old(listChangeListeners), listener.value)
    {
      if listener.None? {
        return Thrown(NullArgument);
      }
      listChangeListeners := AddIfAbsent(listChangeListeners, listener.value);
      outcome := Ok;
    }

    /** removeListChangeListener: List.remove, which ignores null (never added). */
    method RemoveListChangeListener(listener: Option<Listener>)
      requires Valid()
      modifies this
      ensures Valid()
      ensures unchanged(this`searchers) && unchanged(this`events) && unchanged(this`propertyChangeListeners)
      ensures listener.None? ==> unchanged(this)
      ensures listener.Some? ==> listChangeListeners == RemoveFirst(old(listChangeListeners), listener.value)
      ensures listener.Some? ==> listener.value !in listChangeListeners
    {
      if listener.None? {
        return;
      }
      RemoveFirstKeepsNoDuplicates(listChangeListeners, listener.value);
      listChangeListeners := RemoveFirst(listChangeListeners, listener.value);
    }

    /** addPropertyChangeListener: rejects null and ignores a listener
        already present. */
    method AddPropertyChangeListener(listener: Option<Listener>) returns (outcome: Outcome)
      requires Valid()
      modifies this
      ensures Valid()
      ensures unchanged(this`searchers) && unchanged(this`events) && unchanged(this`listChangeListeners)
      ensures listener.None? ==> outcome == Thrown(NullArgument) && unchanged(this)
      ensures listener.Some? ==> outcome == Ok && propertyChangeListeners == AddIfAbsent(old(propertyChangeListeners), listener.value)
    {
      if listener.None? {
        return Thrown(NullArgument);
      }
      propertyChangeListeners := AddIfAbsent(propertyChangeListeners, listener.value);
      outcome := Ok;
    }

    /** removePropertyChangeListener: List.remove, which ignores null (never added). */
    method RemovePropertyChangeListener(listener: Option<Listener>)
      requires Valid()
      modifies this
      ensures Valid()
      ensures unchanged(this`searchers) && unchanged(this`events) && unchanged(this`listChangeListeners)
      ensures listener.None? ==> unchanged(this)
      ensures listener.Some? ==> propertyChangeListeners == RemoveFirst(old(propertyChangeListeners), listener.value)
      ensures listener.Some? ==> listener.value !in propertyChangeListeners
    {
      if listener.None? {
        return;
      }
      RemoveFirstKeepsNoDuplicates(propertyChangeListeners, listener.value);
      propertyChangeListeners := RemoveFirst(propertyChangeListeners, listener.value);
    }
  }
}
