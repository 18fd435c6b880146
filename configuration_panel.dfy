/** DefaultConfigurationPanel: a configuration page holding a list of
    fields, each with an id. Ids are looked up by linear search, and adding
    a field whose id is already taken is refused, so the ids of the list
    stay unique. Saving and cancelling visit every field in order. */
module ConfigurationPanel {
  import opened Common

  /** A configuration field: its id (the class allows null), whether its
      type is the extended kind that can save itself, the value its
      component shows and whether the component is enabled. */
  class ConfigurationField {
    const id: Option<string>
    const extended: bool
    var value: string
    var enabled: bool

    constructor (id: Option<string>, extended: bool, value: string)
      ensures this.id == id && this.extended == extended && this.value == value && enabled
    {
      this.id, this.extended, this.value, enabled := id, extended, value, true;
    }
  }

  /** What the panel asks of a field: save and apply its value, or
      re-initialise its component from the settings. */
  datatype FieldAction = SaveAndApply(field: ConfigurationField) | Initialise(field: ConfigurationField)

  /** Every field has an id and no two fields share one. */
  predicate UniqueIds(fs: seq<ConfigurationField>) {
    && (forall i :: 0 <= i < |fs| ==> fs[i].id.Some?)
    && (forall i, j :: 0 <= i < j < |fs| ==> fs[i].id != fs[j].id)
  }

  /** The position getField's loop stops at: the first field whose id
      equals the given one, or -1. */
  function FieldIndex(fs: seq<ConfigurationField>, id: string): (k: int)
    ensures -1 <= k < |fs|
    ensures k == -1 <==> forall i :: 0 <= i < |fs| ==> fs[i].id != Some(id)
    ensures k >= 0 ==> fs[k].id == Some(id) && forall i :: 0 <= i < k ==> fs[i].id != Some(id)
  {
    if fs == [] then -1
    else if fs[0].id == Some(id) then 0
    else
      var k := FieldIndex(fs[1..], id);
      assert forall i :: 1 <= i < |fs| ==> fs[i] == fs[1..][i - 1];
      if k < 0 then -1 else k + 1
  }

  /** With unique ids, the field found for an id is the one field carrying it. */
  lemma FieldIndexUnique(fs: seq<ConfigurationField>, id: string, k: int)
    requires UniqueIds(fs) && 0 <= k < |fs|
    ensures FieldIndex(fs, id) == k <==> fs[k].id == Some(id)
  {
  }

  /** A field with a new id can be appended: the ids stay unique. */
  lemma AddKeepsUnique(fs: seq<ConfigurationField>, f: ConfigurationField)
    requires UniqueIds(fs) && f.id.Some? && FieldIndex(fs, f.id.value) == -1
    ensures UniqueIds(fs + [f])
  {
    var r := fs + [f];
    forall i, j | 0 <= i < j < |r| ensures r[i].id != r[j].id {
      assert r[i] == fs[i];
      if j == |fs| {
        assert fs[i].id != Some(f.id.value);
      } else {
        assert r[j] == fs[j];
      }
    }
  }

  /** After appending a field with a new id, that id is found at the end
      and every other id where it was. */
  lemma AddFindsNewField(fs: seq<ConfigurationField>, f: ConfigurationField, id: string)
    requires f.id.Some? && FieldIndex(fs, f.id.value) == -1
    ensures FieldIndex(fs + [f], id) == if id == f.id.value then |fs| else FieldIndex(fs, id)
  {
    var r := fs + [f];
    assert forall i :: 0 <= i < |fs| ==> r[i] == fs[i];
    assert r[|fs|] == f;
    var k := FieldIndex(fs, id);
    if k >= 0 {
      assert r[k].id == Some(id);
    }
  }

  /** Removing a field of a list with unique ids keeps the ids unique and
      leaves its id absent. */
  lemma RemoveKeepsUnique(fs: seq<ConfigurationField>, f: ConfigurationField)
    requires UniqueIds(fs)
    ensures UniqueIds(RemoveFirst(fs, f))
    ensures f in fs ==> FieldIndex(RemoveFirst(fs, f), f.id.value) == -1
  {
    var r := RemoveFirst(fs, f);
    if f in fs {
      var k := IndexOf(fs, f);
      assert forall i :: 0 <= i < k ==> r[i] == fs[i];
      assert forall i :: k <= i < |r| ==> r[i] == fs[i + 1];
      forall i, j | 0 <= i < j < |r| ensures r[i].id != r[j].id {
        if j < k {
        } else if i < k {
          assert r[i] == fs[i] && r[j] == fs[j + 1];
        } else {
          assert r[i] == fs[i + 1] && r[j] == fs[j + 1];
        }
      }
      forall i | 0 <= i < |r| ensures r[i].id != f.id {
        if i < k {
          assert r[i] == fs[i];
        } else {
          assert r[i] == fs[i + 1];
        }
      }
    }
  }

  /** The save actions of saveAndApplyConfig: one per field of the
      extended type, in list order. */
  function SaveActions(fs: seq<ConfigurationField>): (r: seq<FieldAction>)
    ensures |r| <= |fs|
    ensures forall i :: 0 <= i < |r| ==> r[i].SaveAndApply? && r[i].field in fs && r[i].field.extended
    ensures forall i :: 0 <= i < |fs| && fs[i].extended ==> SaveAndApply(fs[i]) in r
  {
    if fs == [] then []
    else
      var n := |fs| - 1;
      var init := SaveActions(fs[..n]);
      assert forall i :: 0 <= i < n ==> fs[..n][i] == fs[i];
      init + if fs[n].extended then [SaveAndApply(fs[n])] else []
  }

  /** Saving a list in two parts saves the first part, then the second. */
  lemma {:induction false} SaveActionsAppend(a: seq<ConfigurationField>, b: seq<ConfigurationField>)
    ensures SaveActions(a + b) == SaveActions(a) + SaveActions(b)
    decreases |b|
  {
    if b != [] {
      var n := |b| - 1;
      SaveActionsAppend(a, b[..n]);
      var ab := a + b;
      assert ab[..|ab| - 1] == a + b[..n];
      assert ab[|ab| - 1] == b[n];
      var last := if b[n].extended then [SaveAndApply(b[n])] else [];
      assert SaveActions(ab) == SaveActions(a + b[..n]) + last;
      assert SaveActions(b) == SaveActions(b[..n]) + last;
    } else {
      assert a + b == a;
    }
  }

  /** The actions of cancelConfig: every field re-initialised, in list order. */
  function InitialiseActions(fs: seq<ConfigurationField>): (r: seq<FieldAction>)
    ensures |r| == |fs|
    ensures forall i :: 0 <= i < |fs| ==> r[i] == Initialise(fs[i])
  {
    if fs == [] then []
    else InitialiseActions(fs[..|fs| - 1]) + [Initialise(fs[|fs| - 1])]
  }

  class DefaultConfigurationPanel {
    const helpFile: Option<string>
    var fields: seq<ConfigurationField>
    /** The save / re-initialise calls the panel has made on its fields. */
    var actions: seq<FieldAction>

    ghost predicate Valid()
      reads this
    {
      UniqueIds(fields)
    }

    constructor (helpFile: Option<string>)
      ensures Valid() && this.helpFile == helpFile && fields == [] && actions == []
    {
      this.helpFile := helpFile;
      fields, actions := [], [];
    }

    /** getField: rejects a null id; otherwise the first field with an
        equal id, or null. */
    method GetField(id: Option<string>) returns (r: Result<Option<ConfigurationField>>)
      ensures id.None? ==> r == Failure(NullArgument)
      ensures id.Some? ==> r.Success? && var k := FieldIndex(fields, id.value);
        r.value == if k < 0 then None else Some(fields[k])
    {
      if id.None? {
        return Failure(NullArgument);
      }
      var i := 0;
      while i < |fields|
        invariant 0 <= i <= |fields|
        invariant forall j :: 0 <= j < i ==> fields[j].id != id
      {
        if fields[i].id == id {
          return Success(Some(fields[i]));
        }
        i := i + 1;
      }
      return Success(None);
    }

    /** containsId: whether getField finds a field (a null id throws there). */
    method ContainsId(id: Option<string>) returns (r: Result<bool>)
      ensures id.None? ==> r == Failure(NullArgument)
      ensures id.Some? ==> r == Success(exists i :: 0 <= i < |fields| && fields[i].id == id)
    {
      var found := GetField(id);
      if found.Failure? {
        return Failure(found.error);
      }
      r := Success(found.value.Some?);
    }

    /** getValue: the value of the field with that id; an absent id throws
        IllegalArgumentException. */
    method GetValue(id: Option<string>) returns (r: Result<string>)
      ensures id.None? ==> r == Failure(NullArgument)
      ensures id.Some? && FieldIndex(fields, id.value) < 0 ==> r == Failure(IllegalArgument)
      ensures id.Some? && FieldIndex(fields, id.value) >= 0 ==>
        r == Success(fields[FieldIndex(fields, id.value)].value)
    {
      var found := GetField(id);
      if found.Failure? {
        return Failure(found.error);
      }
      if found.value.None? {
        return Failure(IllegalArgument);
      }
      r := Success(found.value.value.value);
    }

    /** setEnabled: enables or disables the component of the field with that
        id; an absent id throws IllegalArgumentException. */
    method SetEnabled(id: Option<string>, enabled: bool) returns (outcome: Outcome)
      requires Valid()
      modifies fields
      ensures id.None? ==> outcome == Thrown(NullArgument)
      ensures id.Some? && FieldIndex(fields, id.value) < 0 ==> outcome == Thrown(IllegalArgument)
      ensures id.Some? && FieldIndex(fields, id.value) >= 0 ==>
        outcome == Ok && fields[FieldIndex(fields, id.value)].enabled == enabled
      ensures forall i :: 0 <= i < |fields| ==> fields[i].value == old(fields[i].value)
      ensures forall i :: 0 <= i < |fields| && fields[i].id != id ==> fields[i].enabled == old(fields[i].enabled)
    {
      var found := GetField(id);
      if found.Failure? {
        return Thrown(found.error);
      }
      if found.value.None? {
        return Thrown(IllegalArgument);
      }
      var f := found.value.value;
      f.enabled := enabled;
      outcome := Ok;
    }

    /** getFields: a copy of the list, which later changes to the panel do
        not reach (a sequence is a value). */
    method GetFields() returns (r: seq<ConfigurationField>)
      ensures r == fields
    {
      r := fields;
    }

    /** addField: rejects null, and a field whose id is null (getField
        throws) or already taken; otherwise appends it. */
    method AddField(field: Option<ConfigurationField>) returns (outcome: Outcome)
      requires Valid()
      modifies this
      ensures Valid() && actions == old(actions)
      ensures field.None? || field.value.id.None? ==> outcome == Thrown(NullArgument) && fields == old(fields)
      ensures field.Some? && field.value.id.Some? && FieldIndex(old(fields), field.value.id.value) >= 0 ==>
        outcome == Thrown(IllegalArgument) && fields == old(fields)
      ensures field.Some? && field.value.id.Some? && FieldIndex(old(fields), field.value.id.value) < 0 ==>
        outcome == Ok && fields == old(fields) + [field.value]
    {
      if field.None? {
        return Thrown(NullArgument);
      }
      var f := field.value;
      var existing := GetField(f.id);
      if existing.Failure? {
        return Thrown(existing.error);
      }
      if existing.value.Some? {
        return Thrown(IllegalArgument);
      }
      AddKeepsUnique(fields, f);
      fields := fields + [f];
      outcome := Ok;
    }

    /** removeField: removes the field (its first and only occurrence),
        keeping the others in order; List.remove ignores null, which is
        never in the list. */
    method RemoveField(field: Option<ConfigurationField>)
      requires Valid()
      modifies this
      ensures Valid() && actions == old(actions)
      ensures field.None? ==> fields == old(fields)
      ensures field.Some? ==> fields == RemoveFirst(old(fields), field.value)
      ensures field.Some? ==> field.value !in fields
    {
      if field.None? {
        return;
      }
      var f := field.value;
      RemoveKeepsUnique(fields, f);
      if f in fields {
        var k := FieldIndex(RemoveFirst(fields, f), f.id.value);
        assert k == -1;
      }
      fields := RemoveFirst(fields, f);
    }

    /** saveAndApplyConfig: every field of the extended type saves and
        applies its value, in list order. */
    method SaveAndApplyConfig()
      requires Valid()
      modifies this
      ensures Valid() && fields == old(fields)
      ensures actions == old(actions) + SaveActions(fields)
    {
      var i := 0;
      while i < |fields|
        invariant 0 <= i <= |fields|
        invariant fields == old(fields)
        invariant actions == old(actions) + SaveActions(fields[..i])
      {
        assert fields[..i + 1][..i] == fields[..i];
        if fields[i].extended {
          actions := actions + [SaveAndApply(fields[i])];
        }
        i := i + 1;
      }
      assert fields[..i] == fields;
    }

    /** cancelConfig: every field re-initialises its component, in list order. */
    method CancelConfig()
      requires Valid()
      modifies this
      ensures Valid() && fields == old(fields)
      ensures actions == old(actions) + InitialiseActions(fields)
    {
      var i := 0;
      while i < |fields|
        invariant 0 <= i <= |fields|
        invariant fields == old(fields)
        invariant actions == old(actions) + InitialiseActions(fields[..i])
      {
        assert fields[..i + 1][..i] == fields[..i];
        actions := actions + [Initialise(fields[i])];
        i := i + 1;
      }
      assert fields[..i] == fields;
    }
  }
}
