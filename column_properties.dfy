/** TaskColumnsProperties: for every task column, its order, width and
    visibility, cached from the settings store under the keys
    "<prefix>.<column in lower case>.order|width|visible". Each setter
    returns at once when the value is unchanged; otherwise it updates the
    cache, writes the key back to the store unless read-only, and fires one
    old/new event. The object listens to the store, so each write comes back
    to it as a property change, which reaches the setter with the value it
    already holds and stops there. */
module ColumnProperties {
  import opened Common
  import opened Text
  import opened Settings

  datatype Field = Order | Width | Visible

  function FieldName(f: Field): string {
    match f
    case Order => "order"
    case Width => "width"
    case Visible => "visible"
  }

  /** The value of one field: an int for order and width, a boolean for
      visibility. */
  datatype FieldValue = IntValue(i: int) | BoolValue(b: bool)

  predicate WellTyped(f: Field, v: FieldValue) {
    if f == Visible then v.BoolValue? else v.IntValue?
  }

  /** TaskColumnProperties: one column's cached fields. */
  datatype ColumnRecord = ColumnRecord(order: int, width: int, visible: bool)

  /** A fresh TaskColumnProperties: Java's default field values. */
  const InitialRecord := ColumnRecord(0, 0, false)

  /** A blank record for every column. */
  function BlankRecords(columns: seq<string>): (r: map<string, ColumnRecord>)
    ensures forall c :: c in columns ==> c in r
  {
    map c | c in columns :: InitialRecord
  }

  function Get(r: ColumnRecord, f: Field): (v: FieldValue)
    ensures WellTyped(f, v)
  {
    match f
    case Order => IntValue(r.order)
    case Width => IntValue(r.width)
    case Visible => BoolValue(r.visible)
  }

  function Put(r: ColumnRecord, f: Field, v: FieldValue): (r': ColumnRecord)
    requires WellTyped(f, v)
    ensures Get(r', f) == v
    ensures forall g :: g != f ==> Get(r', g) == Get(r, g)
  {
    match f
    case Order => r.(order := v.i)
    case Width => r.(width := v.i)
    case Visible => r.(visible := v.b)
  }

  /** What the store holds for a value (setIntegerProperty / setBooleanProperty). */
  function Format(v: FieldValue): string {
    match v
    case IntValue(i) => FormatInt(i)
    case BoolValue(b) => FormatBool(b)
  }

  /** How the listener reads a changed value: Integer.parseInt for order and
      width (None where it throws), Boolean.parseBoolean for visibility. */
  function Parse(f: Field, text: string): (r: Option<FieldValue>)
    ensures r.Some? ==> WellTyped(f, r.value)
  {
    if f == Visible then Some(BoolValue(ParseBool(text)))
    else match ParseInt(text)
      case None => None
      case Some(i) => Some(IntValue(i))
  }

  /** A value written to the store is read back unchanged by the listener. */
  lemma ParseFormat(f: Field, v: FieldValue)
    requires WellTyped(f, v)
    ensures Parse(f, Format(v)) == Some(v)
  {
    match v
    case IntValue(i) => ParseFormatInt(i);
    case BoolValue(b) => ParseFormatBool(b);
  }

  /** The settings key of one field of one column. */
  function Key(prefix: string, column: string, f: Field): string {
    prefix + "." + Lower(column) + "." + FieldName(f)
  }

  /** Column names (TaskColumn.name()) have no '.' and differ ignoring case. */
  predicate ValidColumns(columns: seq<string>) {
    && NoDuplicates(Keys(columns))
    && forall i :: 0 <= i < |columns| ==> '.' !in columns[i]
  }

  lemma LowerNoDot(s: string)
    requires '.' !in s
    ensures '.' !in Lower(s)
  {
    forall i | 0 <= i < |s| ensures Lower(s)[i] != '.' {
      assert s[i] != '.';
    }
  }

  /** a + "." + b == c + "." + d with no '.' in a and c forces a == c. */
  lemma SplitAtDot(a: string, b: string, c: string, d: string)
    requires '.' !in a && '.' !in c
    requires a + "." + b == c + "." + d
    ensures a == c && b == d
  {
    var x := a + "." + b;
    assert x[|a|] == '.';
    assert forall i :: 0 <= i < |a| ==> x[i] == a[i] != '.';
    assert x[|c|] == '.';
    assert forall i :: 0 <= i < |c| ==> x[i] == c[i] != '.';
    assert |a| == |c|;
    assert a == x[..|a|] && c == x[..|c|];
    assert b == x[|a| + 1..] && d == x[|c| + 1..];
  }

  /** What follows the prefix and its dot in a key. */
  lemma KeySuffix(prefix: string, column: string, f: Field)
    ensures Key(prefix, column, f)[|prefix| + 1..] == Lower(column) + "." + FieldName(f)
  {
    var head, tail := prefix + ".", Lower(column) + "." + FieldName(f);
    assert Key(prefix, column, f) == head + tail;
    assert |head| == |prefix| + 1;
  }

  lemma FieldNameInjective(f: Field, g: Field)
    requires FieldName(f) == FieldName(g)
    ensures f == g
  {
  }

  /** Distinct (column, field) pairs have distinct keys. */
  lemma KeyInjective(prefix: string, c1: string, f1: Field, c2: string, f2: Field)
    requires '.' !in c1 && '.' !in c2
    requires Key(prefix, c1, f1) == Key(prefix, c2, f2)
    ensures Lower(c1) == Lower(c2) && f1 == f2
  {
    LowerNoDot(c1);
    LowerNoDot(c2);
    KeySuffix(prefix, c1, f1);
    KeySuffix(prefix, c2, f2);
    SplitAtDot(Lower(c1), FieldName(f1), Lower(c2), FieldName(f2));
    FieldNameInjective(f1, f2);
  }

  /** The first (column index, field) whose key is the given one, scanning
      columns in order and, per column, order, width, visible. */
  function MatchFrom(prefix: string, columns: seq<string>, key: string, j: nat): Option<(nat, Field)>
    decreases |columns| - j
  {
    if j >= |columns| then None
    else if key == Key(prefix, columns[j], Order) then Some((j, Order))
    else if key == Key(prefix, columns[j], Width) then Some((j, Width))
    else if key == Key(prefix, columns[j], Visible) then Some((j, Visible))
    else MatchFrom(prefix, columns, key, j + 1)
  }

  /** A match names a column at or after j whose key is the given one. */
  lemma {:induction false} MatchSound(prefix: string, columns: seq<string>, key: string, j: nat)
    ensures var m := MatchFrom(prefix, columns, key, j);
      m.Some? ==> j <= m.value.0 < |columns| && key == Key(prefix, columns[m.value.0], m.value.1)
    decreases |columns| - j
  {
    if j < |columns| {
      var m := MatchFrom(prefix, columns, key, j);
      if key == Key(prefix, columns[j], Order) {
        assert m == Some((j, Order));
      } else if key == Key(prefix, columns[j], Width) {
        assert m == Some((j, Width));
      } else if key == Key(prefix, columns[j], Visible) {
        assert m == Some((j, Visible));
      } else {
        assert m == MatchFrom(prefix, columns, key, j + 1);
        MatchSound(prefix, columns, key, j + 1);
      }
    }
  }

  /** With valid columns, the key of a column's field is matched to exactly
      that column and field. */
  lemma {:induction false} MatchFound(prefix: string, columns: seq<string>, j: nat, f: Field, s: nat)
    requires ValidColumns(columns) && s <= j < |columns|
    ensures MatchFrom(prefix, columns, Key(prefix, columns[j], f), s) == Some((j, f))
    decreases j - s
  {
    var key := Key(prefix, columns[j], f);
    if s < j {
      DistinctKeys(prefix, columns, j, f, s, Order);
      DistinctKeys(prefix, columns, j, f, s, Width);
      DistinctKeys(prefix, columns, j, f, s, Visible);
      assert MatchFrom(prefix, columns, key, s) == MatchFrom(prefix, columns, key, s + 1);
      MatchFound(prefix, columns, j, f, s + 1);
    } else {
      ColumnKeysDiffer(prefix, columns[j]);
    }
  }

  /** A fired property change of one column: field, old and new value. */
  datatype ColumnEvent = ColumnEvent(column: string, field: Field, oldValue: FieldValue, newValue: FieldValue)

  /** The observable state: the cache, the store and the events fired. */
  datatype ColState = ColState(records: map<string, ColumnRecord>, store: Store, events: seq<ColumnEvent>)

  /** setOrder / setWidth / setVisible (the echo through the store aside,
      which ChangeEchoIsNoop shows to change nothing). */
  function SetSpec(st: ColState, prefix: string, readOnly: bool, column: string, f: Field, v: FieldValue): (r: ColState)
    requires column in st.records && WellTyped(f, v)
    ensures r.records.Keys == st.records.Keys
  {
    var current := Get(st.records[column], f);
    if current == v then st
    else ColState(st.records[column := Put(st.records[column], f, v)],
                  if readOnly then st.store else st.store[Key(prefix, column, f) := Format(v)],
                  st.events + [ColumnEvent(column, f, current, v)])
  }

  /** A changing setter updates exactly that field of that column, writes
      exactly its key unless read-only, and fires exactly one old/new event. */
  lemma SetSpecEffect(st: ColState, prefix: string, readOnly: bool, column: string, f: Field, v: FieldValue)
    requires column in st.records && WellTyped(f, v)
    ensures var st' := SetSpec(st, prefix, readOnly, column, f, v);
      && st'.records.Keys == st.records.Keys
      && Get(st'.records[column], f) == v
      && (forall c, g :: c in st.records && (c, g) != (column, f) ==> Get(st'.records[c], g) == Get(st.records[c], g))
      && (Get(st.records[column], f) == v ==> st' == st)
      && (Get(st.records[column], f) != v ==>
            && st'.events == st.events + [ColumnEvent(column, f, Get(st.records[column], f), v)]
            && st'.store == if readOnly then st.store else st.store[Key(prefix, column, f) := Format(v)])
  {
  }

  /** propertyChange: keys outside the prefix and null values are ignored;
      the value of a key naming a column field goes to that field's setter,
      and an unparsable integer throws. */
  function PropertyChangeSpec(st: ColState, prefix: string, readOnly: bool, columns: seq<string>,
                              key: string, newValue: Option<string>): Result<ColState>
    requires forall c :: c in columns ==> c in st.records
  {
    if !StartsWith(key, prefix) || newValue.None? then Success(st)
    else
      MatchSound(prefix, columns, key, 0);
      match MatchFrom(prefix, columns, key, 0)
      case None => Success(st)
      case Some((j, f)) =>
        match Parse(f, newValue.value)
        case None => Failure(NumberFormat)
        case Some(v) => Success(SetSpec(st, prefix, readOnly, columns[j], f, v))
  }

  /** Only the field whose key matches exactly can change. */
  lemma PropertyChangeTouchesOnlyItsKey(st: ColState, prefix: string, readOnly: bool, columns: seq<string>,
                                        key: string, newValue: Option<string>, column: string, g: Field)
    requires forall c :: c in columns ==> c in st.records
    requires column in st.records && key != Key(prefix, column, g)
    ensures var r := PropertyChangeSpec(st, prefix, readOnly, columns, key, newValue);
      r.Success? ==> Get(r.value.records[column], g) == Get(st.records[column], g)
  {
    MatchSound(prefix, columns, key, 0);
  }

  /** A change carrying, under a column field's own key, the value that
      field already holds changes nothing. This is how the store's echo of a
      setter's own write ends: it reaches the setter with an equal value, so
      the write/echo loop stops after one round. */
  lemma ChangeEchoIsNoop(st: ColState, prefix: string, readOnly: bool, columns: seq<string>, j: nat, f: Field)
    requires ValidColumns(columns) && j < |columns|
    requires forall c :: c in columns ==> c in st.records
    ensures PropertyChangeSpec(st, prefix, readOnly, columns, Key(prefix, columns[j], f),
                               Some(Format(Get(st.records[columns[j]], f)))) == Success(st)
  {
    var key := Key(prefix, columns[j], f);
    assert key[..|prefix|] == prefix;
    MatchFound(prefix, columns, j, f, 0);
    ParseFormat(f, Get(st.records[columns[j]], f));
  }

  /** The default setPropertyName loads a field with. */
  function Default(f: Field): FieldValue {
    match f
    case Order => IntValue(0)
    case Width => IntValue(100)
    case Visible => BoolValue(true)
  }

  /** What loading reads for a field: getIntegerProperty(key, default) or
      getBooleanProperty(key, default). */
  function Stored(store: Store, key: string, f: Field): (v: FieldValue)
    ensures WellTyped(f, v)
    ensures key !in store ==> v == Default(f)
  {
    match f
    case Order => IntValue(GetInt(store, key, 0))
    case Width => IntValue(GetInt(store, key, 100))
    case Visible => BoolValue(GetBool(store, key, true))
  }

  /** Loading one field: its setter, given the value read from the store. */
  function LoadField(st: ColState, prefix: string, readOnly: bool, column: string, f: Field): (r: ColState)
    requires column in st.records
    ensures r.records.Keys == st.records.Keys
  {
    SetSpecEffect(st, prefix, readOnly, column, f, Stored(st.store, Key(prefix, column, f), f));
    SetSpec(st, prefix, readOnly, column, f, Stored(st.store, Key(prefix, column, f), f))
  }

  /** Loading one column: order, then width, then visible. */
  function LoadColumn(st: ColState, prefix: string, readOnly: bool, column: string): (r: ColState)
    requires column in st.records
    ensures r.records.Keys == st.records.Keys
  {
    var st1 := LoadField(st, prefix, readOnly, column, Order);
    var st2 := LoadField(st1, prefix, readOnly, column, Width);
    LoadField(st2, prefix, readOnly, column, Visible)
  }

  /** The loading loop of setPropertyName, column by column. */
  function LoadAll(st: ColState, prefix: string, readOnly: bool, columns: seq<string>): (r: ColState)
    requires forall c :: c in columns ==> c in st.records
    ensures r.records.Keys == st.records.Keys
  {
    if columns == [] then st
    else LoadColumn(LoadAll(st, prefix, readOnly, columns[..|columns| - 1]), prefix, readOnly, columns[|columns| - 1])
  }

  /** One more column of the loading loop. */
  lemma LoadAllStep(st: ColState, prefix: string, readOnly: bool, columns: seq<string>, i: nat)
    requires i < |columns| && forall c :: c in columns ==> c in st.records
    ensures forall c :: c in columns[..i + 1] ==> c in st.records
    ensures LoadAll(st, prefix, readOnly, columns[..i + 1]) ==
      LoadColumn(LoadAll(st, prefix, readOnly, columns[..i]), prefix, readOnly, columns[i])
  {
    assert columns[..i + 1][..i] == columns[..i];
  }

  /** The store agrees with another at one key. */
  predicate SameAt(s1: Store, s2: Store, key: string) {
    (key in s1 <==> key in s2) && (key in s1 ==> s1[key] == s2[key])
  }

  /** Loading one field sets it from the store and touches nothing else
      but its own key. */
  lemma LoadFieldEffect(st: ColState, prefix: string, readOnly: bool, column: string, f: Field)
    requires column in st.records
    ensures var r := LoadField(st, prefix, readOnly, column, f);
      && Get(r.records[column], f) == Stored(st.store, Key(prefix, column, f), f)
      && (forall g :: g != f ==> Get(r.records[column], g) == Get(st.records[column], g))
      && (forall c :: c in st.records && c != column ==> r.records[c] == st.records[c])
      && (forall key :: key != Key(prefix, column, f) ==> SameAt(st.store, r.store, key))
  {
    SetSpecEffect(st, prefix, readOnly, column, f, Stored(st.store, Key(prefix, column, f), f));
  }

  /** The three keys of a column differ. */
  lemma ColumnKeysDiffer(prefix: string, column: string)
    requires '.' !in column
    ensures Key(prefix, column, Order) != Key(prefix, column, Width)
    ensures Key(prefix, column, Order) != Key(prefix, column, Visible)
    ensures Key(prefix, column, Width) != Key(prefix, column, Visible)
  {
    forall f, g | f != g ensures Key(prefix, column, f) != Key(prefix, column, g) {
      if Key(prefix, column, f) == Key(prefix, column, g) {
        KeyInjective(prefix, column, f, column, g);
      }
    }
  }

  /** Loading a column sets its three fields from the store as it was, and
      touches no other column and no other key. */
  lemma LoadColumnEffect(st: ColState, prefix: string, readOnly: bool, column: string)
    requires column in st.records && '.' !in column
    ensures var r := LoadColumn(st, prefix, readOnly, column);
      && (forall f :: Get(r.records[column], f) == Stored(st.store, Key(prefix, column, f), f))
      && (forall c :: c in st.records && c != column ==> r.records[c] == st.records[c])
      && (forall key :: (key != Key(prefix, column, Order) && key != Key(prefix, column, Width) &&
                         key != Key(prefix, column, Visible)) ==> SameAt(st.store, r.store, key))
  {
    ColumnKeysDiffer(prefix, column);
    var ko, kw, kv := Key(prefix, column, Order), Key(prefix, column, Width), Key(prefix, column, Visible);
    var st1 := LoadField(st, prefix, readOnly, column, Order);
    var st2 := LoadField(st1, prefix, readOnly, column, Width);
    var r := LoadField(st2, prefix, readOnly, column, Visible);
    assert r == LoadColumn(st, prefix, readOnly, column);
    LoadFieldEffect(st, prefix, readOnly, column, Order);
    LoadFieldEffect(st1, prefix, readOnly, column, Width);
    LoadFieldEffect(st2, prefix, readOnly, column, Visible);
    StoredSame(st.store, st1.store, kw, Width);
    StoredSame(st.store, st1.store, kv, Visible);
    StoredSame(st1.store, st2.store, kv, Visible);
    forall key | key != ko && key != kw && key != kv
      ensures SameAt(st.store, r.store, key)
    {
      assert SameAt(st.store, st1.store, key) && SameAt(st1.store, st2.store, key) && SameAt(st2.store, r.store, key);
    }
  }

  /** Stores that agree at a key read the same field value there. */
  lemma StoredSame(s1: Store, s2: Store, key: string, f: Field)
    requires SameAt(s1, s2, key)
    ensures Stored(s1, key, f) == Stored(s2, key, f)
  {
    if key in s1 {
      assert s1[key] == s2[key];
    }
  }

  /** A key of one of the columns' fields. */
  predicate IsColumnKey(prefix: string, columns: seq<string>, key: string) {
    exists i, f :: 0 <= i < |columns| && key == Key(prefix, columns[i], f)
  }

  lemma ValidColumnsPrefix(columns: seq<string>, n: nat)
    requires ValidColumns(columns) && n <= |columns|
    ensures ValidColumns(columns[..n])
  {
    KeysSlice(columns, 0, n);
  }

  /** Loading leaves a key alone that is none of the loaded columns' keys. */
  lemma {:induction false} LoadKeepsKey(st: ColState, prefix: string, readOnly: bool, columns: seq<string>, key: string)
    requires forall i :: 0 <= i < |columns| ==> '.' !in columns[i]
    requires forall c :: c in columns ==> c in st.records
    requires forall i, f :: 0 <= i < |columns| ==> key != Key(prefix, columns[i], f)
    ensures SameAt(st.store, LoadAll(st, prefix, readOnly, columns).store, key)
    decreases |columns|
  {
    if columns != [] {
      var n := |columns| - 1;
      var init, last := columns[..n], columns[n];
      assert forall i :: 0 <= i < n ==> init[i] == columns[i];
      LoadKeepsKey(st, prefix, readOnly, init, key);
      var mid := LoadAll(st, prefix, readOnly, init);
      var r := LoadColumn(mid, prefix, readOnly, last);
      assert LoadAll(st, prefix, readOnly, columns) == r;
      assert SameAt(mid.store, r.store, key) by {
        assert key != Key(prefix, last, Order) && key != Key(prefix, last, Width) && key != Key(prefix, last, Visible);
        LoadColumnEffect(mid, prefix, readOnly, last);
      }
    }
  }

  /** Loading writes no key outside the columns' own keys. */
  lemma LoadKeepsOtherKeys(st: ColState, prefix: string, readOnly: bool, columns: seq<string>)
    requires ValidColumns(columns) && forall c :: c in columns ==> c in st.records
    ensures forall key :: !IsColumnKey(prefix, columns, key) ==>
      SameAt(st.store, LoadAll(st, prefix, readOnly, columns).store, key)
  {
    forall key | !IsColumnKey(prefix, columns, key)
      ensures SameAt(st.store, LoadAll(st, prefix, readOnly, columns).store, key)
    {
      LoadKeepsKey(st, prefix, readOnly, columns, key);
    }
  }

  /** Loading leaves the records of other columns alone. */
  lemma {:induction false} LoadKeepsOtherColumns(st: ColState, prefix: string, readOnly: bool, columns: seq<string>)
    requires forall i :: 0 <= i < |columns| ==> '.' !in columns[i]
    requires forall c :: c in columns ==> c in st.records
    ensures forall c :: c in st.records && c !in columns ==>
      LoadAll(st, prefix, readOnly, columns).records[c] == st.records[c]
    decreases |columns|
  {
    if columns != [] {
      var n := |columns| - 1;
      var init := columns[..n];
      assert forall c :: c in init ==> c in columns;
      LoadKeepsOtherColumns(st, prefix, readOnly, init);
      var mid := LoadAll(st, prefix, readOnly, init);
      LoadColumnEffect(mid, prefix, readOnly, columns[n]);
      forall c | c in st.records && c !in columns
        ensures LoadAll(st, prefix, readOnly, columns).records[c] == st.records[c]
      {
        assert c !in init && c != columns[n];
        assert mid.records[c] == st.records[c];
      }
    }
  }

  /** The key of the last column is not a key of the columns before it. */
  lemma LastKeyIsNew(prefix: string, columns: seq<string>, f: Field)
    requires ValidColumns(columns) && |columns| > 0
    ensures !IsColumnKey(prefix, columns[..|columns| - 1], Key(prefix, columns[|columns| - 1], f))
  {
    var n := |columns| - 1;
    forall i, g | 0 <= i < n ensures Key(prefix, columns[n], f) != Key(prefix, columns[..n][i], g) {
      assert Keys(columns)[i] != Keys(columns)[n];
      if Key(prefix, columns[n], f) == Key(prefix, columns[i], g) {
        KeyInjective(prefix, columns[n], f, columns[i], g);
      }
    }
  }

  /** Loading sets every column's fields from the keys
      "<prefix>.<column>.order|width|visible" as the store held them
      beforehand, with defaults 0, 100 and true. */
  lemma LoadReadsKeys(st: ColState, prefix: string, readOnly: bool, columns: seq<string>)
    requires ValidColumns(columns) && forall c :: c in columns ==> c in st.records
    ensures ReadFrom(LoadAll(st, prefix, readOnly, columns).records, columns, st.store, prefix)
  {
    forall i, f | 0 <= i < |columns|
      ensures Get(LoadAll(st, prefix, readOnly, columns).records[columns[i]], f) ==
              Stored(st.store, Key(prefix, columns[i], f), f)
    {
      ReadsKeyAt(st, prefix, readOnly, columns, i, f);
    }
  }

  /** One field of one column, after loading: what the store held under its
      key before the load. */
  lemma {:induction false} ReadsKeyAt(st: ColState, prefix: string, readOnly: bool, columns: seq<string>, i: nat, f: Field)
    requires ValidColumns(columns) && i < |columns| && forall c :: c in columns ==> c in st.records
    ensures columns[i] in LoadAll(st, prefix, readOnly, columns).records
    ensures Get(LoadAll(st, prefix, readOnly, columns).records[columns[i]], f) ==
            Stored(st.store, Key(prefix, columns[i], f), f)
    decreases |columns|
  {
    LoadKeepsOtherColumns(st, prefix, readOnly, columns);
    var n := |columns| - 1;
    if i == n {
      LastColumnRead(st, prefix, readOnly, columns, f);
    } else {
      var init := columns[..n];
      ValidColumnsPrefix(columns, n);
      assert forall c :: c in init ==> c in columns;
      assert columns[i] == init[i];
      ReadsKeyAt(st, prefix, readOnly, init, i, f);
      EarlierColumnKept(st, prefix, readOnly, columns, i);
    }
  }

  /** Loading the last column leaves the columns before it as they were. */
  lemma EarlierColumnKept(st: ColState, prefix: string, readOnly: bool, columns: seq<string>, i: nat)
    requires ValidColumns(columns) && i < |columns| - 1 && forall c :: c in columns ==> c in st.records
    ensures columns[i] in LoadAll(st, prefix, readOnly, columns[..|columns| - 1]).records
    ensures LoadAll(st, prefix, readOnly, columns).records[columns[i]] ==
            LoadAll(st, prefix, readOnly, columns[..|columns| - 1]).records[columns[i]]
  {
    var n := |columns| - 1;
    var init, last := columns[..n], columns[n];
    ValidColumnsPrefix(columns, n);
    assert forall c :: c in init ==> c in columns;
    NoDuplicatesOfKeys(columns);
    assert columns[i] != last by {
      assert Keys(columns)[i] != Keys(columns)[n];
    }
    var mid := LoadAll(st, prefix, readOnly, init);
    assert LoadColumn(mid, prefix, readOnly, last) == LoadAll(st, prefix, readOnly, columns);
    LoadKeepsOtherColumns(st, prefix, readOnly, init);
    LoadColumnEffect(mid, prefix, readOnly, last);
  }

  /** The last column loaded reads its keys from the store as it was before
      the whole load: the columns before it never write those keys. */
  lemma LastColumnRead(st: ColState, prefix: string, readOnly: bool, columns: seq<string>, f: Field)
    requires ValidColumns(columns) && |columns| > 0 && forall c :: c in columns ==> c in st.records
    ensures var last := columns[|columns| - 1];
      Get(LoadAll(st, prefix, readOnly, columns).records[last], f) == Stored(st.store, Key(prefix, last, f), f)
  {
    var n := |columns| - 1;
    var init, last := columns[..n], columns[n];
    ValidColumnsPrefix(columns, n);
    assert forall c :: c in init ==> c in columns;
    var mid := LoadAll(st, prefix, readOnly, init);
    var r := LoadColumn(mid, prefix, readOnly, last);
    assert r == LoadAll(st, prefix, readOnly, columns);
    var key := Key(prefix, last, f);
    assert Get(r.records[last], f) == Stored(mid.store, key, f) by {
      LoadKeepsOtherColumns(st, prefix, readOnly, init);
      LoadColumnEffect(mid, prefix, readOnly, last);
    }
    assert SameAt(st.store, mid.store, key) by {
      LastKeyIsNew(prefix, columns, f);
      LoadKeepsKey(st, prefix, readOnly, init, key);
    }
    StoredSame(st.store, mid.store, key, f);
  }

  /** Every column's fields hold what the store has under their keys, or
      the defaults. */
  predicate ReadFrom(records: map<string, ColumnRecord>, columns: seq<string>, store: Store, prefix: string)
    requires forall c :: c in columns ==> c in records
  {
    forall i, f :: 0 <= i < |columns| ==>
      Get(records[columns[i]], f) == Stored(store, Key(prefix, columns[i], f), f)
  }

  /** A read-only load writes nothing to the store. */
  lemma {:induction false} ReadOnlyLoadWritesNothing(st: ColState, prefix: string, columns: seq<string>)
    requires forall c :: c in columns ==> c in st.records
    ensures LoadAll(st, prefix, true, columns).store == st.store
    decreases |columns|
  {
    if columns != [] {
      var n := |columns| - 1;
      ReadOnlyLoadWritesNothing(st, prefix, columns[..n]);
      var mid := LoadAll(st, prefix, true, columns[..n]);
      var st1 := LoadField(mid, prefix, true, columns[n], Order);
      var st2 := LoadField(st1, prefix, true, columns[n], Width);
      SetSpecEffect(mid, prefix, true, columns[n], Order, Stored(mid.store, Key(prefix, columns[n], Order), Order));
      SetSpecEffect(st1, prefix, true, columns[n], Width, Stored(st1.store, Key(prefix, columns[n], Width), Width));
      SetSpecEffect(st2, prefix, true, columns[n], Visible, Stored(st2.store, Key(prefix, columns[n], Visible), Visible));
    }
  }

  /** getVisibleTaskColumns: the visible columns, in declaration order. */
  function VisibleColumns(columns: seq<string>, records: map<string, ColumnRecord>): (r: seq<string>)
    requires forall c :: c in columns ==> c in records
    ensures forall c :: c in r <==> c in columns && records[c].visible
    ensures |r| <= |columns|
  {
    if columns == [] then []
    else
      var n := |columns| - 1;
      var init := VisibleColumns(columns[..n], records);
      assert forall c :: c in columns <==> c in columns[..n] || c == columns[n];
      if records[columns[n]].visible then init + [columns[n]] else init
  }

  /** The elements of r appear in s in the order they have in r. */
  predicate InOrder(r: seq<string>, s: seq<string>) {
    forall i, j :: 0 <= i < j < |r| ==> IndexOf(s, r[i]) < IndexOf(s, r[j])
  }

  /** The visible columns keep their declaration order. */
  lemma {:induction false} VisibleInOrder(columns: seq<string>, records: map<string, ColumnRecord>)
    requires NoDuplicates(columns) && forall c :: c in columns ==> c in records
    ensures InOrder(VisibleColumns(columns, records), columns)
    decreases |columns|
  {
    if columns != [] {
      var n := |columns| - 1;
      assert NoDuplicates(columns[..n]) by {
        forall i, j | 0 <= i < j < n ensures columns[..n][i] != columns[..n][j] {
          assert columns[..n][i] == columns[i] && columns[..n][j] == columns[j];
        }
      }
      VisibleInOrder(columns[..n], records);
      VisibleInOrderStep(columns, records);
    }
  }

  /** The last column keeps the visible columns in order. */
  lemma VisibleInOrderStep(columns: seq<string>, records: map<string, ColumnRecord>)
    requires NoDuplicates(columns) && |columns| > 0 && forall c :: c in columns ==> c in records
    requires InOrder(VisibleColumns(columns[..|columns| - 1], records), columns[..|columns| - 1])
    ensures InOrder(VisibleColumns(columns, records), columns)
  {
    var n := |columns| - 1;
    var init, last := columns[..n], columns[n];
    var ri, r := VisibleColumns(init, records), VisibleColumns(columns, records);
    assert last !in init;
    IndexOfAt(columns, last, n);
    assert r == if records[last].visible then ri + [last] else ri;
    forall i, j | 0 <= i < j < |r| ensures IndexOf(columns, r[i]) < IndexOf(columns, r[j]) {
      assert r[i] == ri[i] && ri[i] in ri;
      assert ri[i] in init;
      IndexOfInPrefix(columns, n, r[i]);
      if j < |ri| {
        assert r[j] == ri[j] && ri[j] in ri;
        assert ri[j] in init;
        IndexOfInPrefix(columns, n, r[j]);
        assert IndexOf(init, ri[i]) < IndexOf(init, ri[j]);
      } else {
        assert r[j] == last;
      }
    }
  }

  /** One step of getVisibleTaskColumns: removing the first occurrence of
      an invisible column from the list still to be examined leaves the
      visible columns so far followed by the rest. */
  lemma VisibleStep(columns: seq<string>, records: map<string, ColumnRecord>, i: nat)
    requires NoDuplicates(columns) && i < |columns|
    requires forall c :: c in columns ==> c in records
    ensures var done := VisibleColumns(columns[..i], records);
      VisibleColumns(columns[..i + 1], records) + columns[i + 1..] ==
        if records[columns[i]].visible then done + columns[i..]
        else RemoveFirst(done + columns[i..], columns[i])
  {
    var c := columns[i];
    var done := VisibleColumns(columns[..i], records);
    assert columns[..i + 1][..i] == columns[..i];
    assert done + [c] + columns[i + 1..] == done + columns[i..];
    if !records[c].visible {
      assert c !in columns[..i];
      RemoveFirstAt(done, c, columns[i + 1..]);
    }
  }

  /** Two different (column, field) pairs of valid columns have different keys. */
  lemma DistinctKeys(prefix: string, columns: seq<string>, j: nat, f: Field, k: nat, g: Field)
    requires ValidColumns(columns) && j < |columns| && k < |columns| && (j, f) != (k, g)
    ensures Key(prefix, columns[j], f) != Key(prefix, columns[k], g)
  {
    if j != k {
      assert Keys(columns)[j] != Keys(columns)[k];
    }
    if Key(prefix, columns[j], f) == Key(prefix, columns[k], g) {
      KeyInjective(prefix, columns[j], f, columns[k], g);
    }
  }

  /** One step of the scan for a changed key: the key names a field of
      column i exactly when that is the match, and an unmatched key stays
      unmatched further on. */
  lemma MatchStep(prefix: string, columns: seq<string>, key: string, target: Option<(nat, Field)>, i: nat)
    requires ValidColumns(columns) && i < |columns|
    requires target == MatchFrom(prefix, columns, key, 0)
    requires target.None? || target.value.0 >= i ==> MatchFrom(prefix, columns, key, i) == target
    ensures forall g :: key == Key(prefix, columns[i], g) <==> target == Some((i, g))
    ensures target.None? || target.value.0 >= i + 1 ==> MatchFrom(prefix, columns, key, i + 1) == target
  {
    MatchSound(prefix, columns, key, 0);
    if target.Some? && target.value.0 != i {
      var (j, f) := target.value;
      forall g ensures key != Key(prefix, columns[i], g) {
        DistinctKeys(prefix, columns, j, f, i, g);
      }
    } else if target.None? {
      assert MatchFrom(prefix, columns, key, i) == None;
      assert key != Key(prefix, columns[i], Order) && key != Key(prefix, columns[i], Width) && key != Key(prefix, columns[i], Visible);
    } else {
      var f := target.value.1;
      forall g | g != f ensures key != Key(prefix, columns[i], g) {
        DistinctKeys(prefix, columns, i, f, i, g);
      }
    }
  }

  /** The cache of every column's order, width and visibility, and its link
      to the shared settings store. */
  class TaskColumnsProperties {
    /** TaskColumn.values(), in declaration order. */
    const columns: seq<string>
    /** The settings store (Main.getSettings()). */
    const store: SettingsStore
    var propertyName: string
    var readOnly: bool
    var records: map<string, ColumnRecord>
    /** Whether this object is registered as a listener of the store. */
    var listening: bool
    /** The old/new events the column records have fired. */
    var events: seq<ColumnEvent>

    ghost predicate Valid()
      reads this
    {
      ValidColumns(columns) && forall c :: c in columns ==> c in records
    }

    ghost function State(): ColState
      reads this, store
    {
      ColState(records, store.props, events)
    }

    /** How far a property change is from the end of the write/echo
        recursion: 1 when it names a column field and carries, once parsed,
        the value that field holds (the echo of a setter's own write), else 3. */
    ghost function EchoRank(key: string, newValue: Option<string>): nat
      requires Valid()
      reads this
    {
      match MatchFrom(propertyName, columns, key, 0)
      case None => 3
      case Some((j, f)) =>
        MatchSound(propertyName, columns, key, 0);
        if newValue.Some? && Parse(f, newValue.value) == Some(Get(records[columns[j]], f)) then 1 else 3
    }

    /** new TaskColumnsProperties(propertyName, readOnly): a blank record per
        column, loaded from the store while still writable, then the
        read-only flag. */
    constructor (columns: seq<string>, store: SettingsStore, propertyName: string, readOnly: bool)
      requires ValidColumns(columns)
      modifies store
      ensures Valid() && this.columns == columns && this.store == store
      ensures this.propertyName == propertyName && this.readOnly == readOnly && listening
      ensures State() == LoadAll(ColState(BlankRecords(columns), old(store.props), []),
                                 propertyName, false, columns)
      ensures ReadFrom(records, columns, old(store.props), propertyName)
    {
      ghost var st0 := ColState(BlankRecords(columns), store.props, []);
      LoadReadsKeys(st0, propertyName, false, columns);
      this.columns, this.store := columns, store;
      this.propertyName := "";
      this.readOnly := false;
      records := BlankRecords(columns);
      listening := false;
      events := [];
      new;
      assert State() == st0;
      var _ := SetPropertyName(Some(propertyName));
      this.readOnly := readOnly;
    }

    /** setOrder / setWidth / setVisible of a column's record: nothing when
        the value is unchanged; otherwise the field, the store key unless
        read-only (whose echo comes back through PropertyChange while
        listening), and one old/new event. */
    method SetField(column: string, f: Field, v: FieldValue)
      requires Valid() && column in columns && WellTyped(f, v)
      modifies this, store
      decreases if Get(records[column], f) == v then 0 else 2, 0
      ensures Valid()
      ensures propertyName == old(propertyName) && readOnly == old(readOnly) && listening == old(listening)
      ensures State() == SetSpec(old(State()), propertyName, readOnly, column, f, v)
    {
      var current := Get(records[column], f);
      if v == current {
        return;
      }
      ghost var j := IndexOf(columns, column);
      ghost var st1 := SetSpec(State(), propertyName, readOnly, column, f, v);
      MatchFound(propertyName, columns, j, f, 0);
      ParseFormat(f, v);
      ChangeEchoIsNoop(st1, propertyName, readOnly, columns, j, f);
      records := records[column := Put(records[column], f, v)];
      if !readOnly {
        var key := Key(propertyName, column, f);
        store.props := store.props[key := Format(v)];
        if listening {
          var _ := PropertyChange(key, Some(Format(v)));
        }
      }
      events := events + [ColumnEvent(column, f, current, v)];
    }

    method SetOrder(column: string, order: int)
      requires Valid() && column in columns
      modifies this, store
      ensures Valid()
      ensures propertyName == old(propertyName) && readOnly == old(readOnly) && listening == old(listening)
      ensures State() == SetSpec(old(State()), propertyName, readOnly, column, Order, IntValue(order))
    {
      SetField(column, Order, IntValue(order));
    }

    method SetWidth(column: string, width: int)
      requires Valid() && column in columns
      modifies this, store
      ensures Valid()
      ensures propertyName == old(propertyName) && readOnly == old(readOnly) && listening == old(listening)
      ensures State() == SetSpec(old(State()), propertyName, readOnly, column, Width, IntValue(width))
    {
      SetField(column, Width, IntValue(width));
    }

    method SetVisible(column: string, visible: bool)
      requires Valid() && column in columns
      modifies this, store
      ensures Valid()
      ensures propertyName == old(propertyName) && readOnly == old(readOnly) && listening == old(listening)
      ensures State() == SetSpec(old(State()), propertyName, readOnly, column, Visible, BoolValue(visible))
    {
      SetField(column, Visible, BoolValue(visible));
    }

    /** propertyChange: a store change under this object's prefix with a
        non-null value goes to the setter of the column field whose key it
        is; an unparsable integer throws NumberFormatException. */
    method PropertyChange(key: string, newValue: Option<string>) returns (outcome: Outcome)
      requires Valid()
      modifies this, store
      decreases EchoRank(key, newValue), 3
      ensures Valid()
      ensures propertyName == old(propertyName) && readOnly == old(readOnly) && listening == old(listening)
      ensures var r := PropertyChangeSpec(old(State()), propertyName, readOnly, columns, key, newValue);
        && (r.Failure? ==> outcome == Thrown(r.error) && State() == old(State()))
        && (r.Success? ==> outcome == Ok && State() == r.value)
    {
      if !StartsWith(key, propertyName) || newValue.None? {
        return Ok;
      }
      var text := newValue.value;
      ghost var target := MatchFrom(propertyName, columns, key, 0);
      MatchSound(propertyName, columns, key, 0);
      var i := 0;
      while i < |columns|
        invariant 0 <= i <= |columns|
        invariant Valid()
        invariant propertyName == old(propertyName) && readOnly == old(readOnly) && listening == old(listening)
        invariant target.None? || target.value.0 >= i ==>
          MatchFrom(propertyName, columns, key, i) == target && State() == old(State())
        invariant target.Some? && target.value.0 < i ==>
          && Parse(target.value.1, text).Some?
          && State() == SetSpec(old(State()), propertyName, readOnly, columns[target.value.0],
                                target.value.1, Parse(target.value.1, text).value)
      {
        MatchStep(propertyName, columns, key, target, i);
        var failed := UpdateColumn(i, key, text, if target.Some? && target.value.0 == i then Some(target.value.1) else None);
        if failed {
          return Thrown(NumberFormat);
        }
        i := i + 1;
      }
      outcome := Ok;
    }

    /** One pass of the listener's loop: the changed key is compared with the
        order, width and visibility keys of column i, and the setter of the
        one it names (`hit`) is called on the parsed text. */
    method UpdateColumn(i: nat, key: string, text: string, ghost hit: Option<Field>) returns (failed: bool)
      requires Valid() && i < |columns|
      requires forall g :: key == Key(propertyName, columns[i], g) <==> hit == Some(g)
      modifies this, store
      decreases if hit.None? then 0 else if Parse(hit.value, text) == Some(Get(records[columns[i]], hit.value)) then 1 else 3, 2
      ensures Valid()
      ensures propertyName == old(propertyName) && readOnly == old(readOnly) && listening == old(listening)
      ensures failed <==> hit.Some? && Parse(hit.value, text).None?
      ensures hit.None? || failed ==> State() == old(State())
      ensures hit.Some? && !failed ==>
        State() == SetSpec(old(State()), propertyName, readOnly, columns[i], hit.value, Parse(hit.value, text).value)
    {
      failed := false;
      if key == Key(propertyName, columns[i], Order) {
        failed := SetParsed(columns[i], Order, text);
        if failed {
          return;
        }
      }
      if key == Key(propertyName, columns[i], Width) {
        failed := SetParsed(columns[i], Width, text);
        if failed {
          return;
        }
      }
      if key == Key(propertyName, columns[i], Visible) {
        failed := SetParsed(columns[i], Visible, text);
      }
    }

    /** A setter called on the parsed text: Integer.parseInt for the order
        and the width (NumberFormatException on bad text, nothing changed),
        Boolean.parseBoolean for the visibility (never fails). */
    method SetParsed(column: string, f: Field, text: string) returns (failed: bool)
      requires Valid() && column in columns
      modifies this, store
      decreases if Parse(f, text) == Some(Get(records[column], f)) then 1 else 3, 1
      ensures Valid()
      ensures propertyName == old(propertyName) && readOnly == old(readOnly) && listening == old(listening)
      ensures failed <==> Parse(f, text).None?
      ensures failed ==> State() == old(State())
      ensures !failed ==> State() == SetSpec(old(State()), propertyName, readOnly, column, f, Parse(f, text).value)
    {
      if f == Visible {
        SetField(column, f, BoolValue(ParseBool(text)));
        return false;
      }
      var parsed := ParseInt(text);
      if parsed.None? {
        return true;
      }
      SetField(column, f, IntValue(parsed.value));
      failed := false;
    }

    /** setPropertyName: rejects null; detaches from the store, loads every
        column under the new prefix, and attaches again. */
    method SetPropertyName(name: Option<string>) returns (outcome: Outcome)
      requires Valid()
      modifies this, store
      ensures Valid() && readOnly == old(readOnly)
      ensures name.None? ==> outcome == Thrown(NullArgument) && unchanged(this) && unchanged(store)
      ensures name.Some? ==>
        && outcome == Ok && propertyName == name.value && listening
        && State() == LoadAll(old(State()), name.value, readOnly, columns)
    {
      if name.None? {
        return Thrown(NullArgument);
      }
      ghost var st0 := State();
      listening := false;
      propertyName := name.value;
      var i := 0;
      while i < |columns|
        invariant 0 <= i <= |columns|
        invariant Valid() && readOnly == old(readOnly) && propertyName == name.value && !listening
        invariant State() == LoadAll(st0, propertyName, readOnly, columns[..i])
      {
        LoadAllStep(st0, propertyName, readOnly, columns, i);
        LoadColumnFromStore(columns[i]);
        i := i + 1;
      }
      assert columns[..i] == columns;
      listening := true;
      outcome := Ok;
    }

    /** One iteration of setPropertyName's loop: the column's order, width
        and visibility set from the store under the current prefix. */
    method LoadColumnFromStore(c: string)
      requires Valid() && c in columns
      modifies this, store
      ensures Valid()
      ensures propertyName == old(propertyName) && readOnly == old(readOnly) && listening == old(listening)
      ensures State() == LoadColumn(old(State()), propertyName, readOnly, c)
    {
      SetField(c, Order, Stored(store.props, Key(propertyName, c, Order), Order));
      SetField(c, Width, Stored(store.props, Key(propertyName, c, Width), Width));
      SetField(c, Visible, Stored(store.props, Key(propertyName, c, Visible), Visible));
    }

    method SetReadOnly(readOnly: bool)
      modifies this
      ensures this.readOnly == readOnly
      ensures records == old(records) && propertyName == old(propertyName) && events == old(events)
      ensures listening == old(listening)
    {
      this.readOnly := readOnly;
    }

    /** getVisibleTaskColumns: all columns, less each one that is not
        visible (List.remove of its first occurrence). */
    method GetVisibleTaskColumns() returns (r: seq<string>)
      requires Valid()
      ensures r == VisibleColumns(columns, records)
      ensures forall c :: c in r <==> c in columns && records[c].visible
    {
      NoDuplicatesOfKeys(columns);
      r := VisibleOf(columns, records);
    }
  }

  /** The loop of getVisibleTaskColumns over the columns and their records:
      start from all columns and remove each one that is not visible. */
  method VisibleOf(cols: seq<string>, recs: map<string, ColumnRecord>) returns (r: seq<string>)
    requires NoDuplicates(cols) && forall c :: c in cols ==> c in recs
    ensures r == VisibleColumns(cols, recs)
  {
      r := cols;
      var i := 0;
      while i < |cols|
        invariant 0 <= i <= |cols|
        invariant r == VisibleColumns(cols[..i], recs) + cols[i..]
      {
        VisibleStep(cols, recs, i);
        if !recs[cols[i]].visible {
          r := RemoveFirst(r, cols[i]);
        }
        i := i + 1;
      }
      assert cols[..i] == cols;
  }
}
