# TaskUnifier core, modelled in Dafny

This project models the parts of the TaskUnifier desktop task manager that
hold logic rather than layout, and proves properties of them:

- **TaskContactLinkList** (`contact_links.dfy`) keeps the contact links of
  every end-user task in two forms: a list with one entry per occurrence, and
  a case-insensitively sorted set. It fires VALUE_ADDED with the link's rank
  when a link first appears. It fires VALUE_REMOVED when the last occurrence
  goes.
- **TaskSearcherFactory** (`searcher_factory.dfy`) is the registry of
  searchers, with its two listener lists.
- **TaskColumnsProperties** (`column_properties.dfy`) caches the order, width
  and visibility of every task column. The cache is read from and written
  back to the settings store under `<prefix>.<column>.order|width|visible`,
  and the object also listens to the store's own changes.
- **DefaultConfigurationPanel** (`configuration_panel.dfy`) is a page of
  configuration fields with unique ids.
- **TaskSearcherPanel** (`searcher_panel.dfy`) hands out the selected searcher.
  It narrows the searcher by a title filter, optionally puts completed tasks
  last, sets the edit/remove buttons, and restores the saved selection.
- **PluginLicense** (`plugin_license.dfy`) holds the email and serial
  normalisation and the SHA-1 licence check.
- **TemplateRowFilter** (`template_filter.dfy`) is the case-insensitive title
  filter of the template list.
- **TaskPriorityModel** (`priority_model.dfy`) is the reversed priority list,
  with an optional null entry.
- **TaskTagModel** (`tag_model.dfy`) is the tag list model that follows the
  tag list's change events.
- **SchedulerSleepTimeFieldType** (`sleep_time_field.dfy`) converts between
  stored milliseconds and displayed seconds, within the spinner's bounds.
- **ProxyPortFieldType** (`proxy_port_field.dfy`) validates the port text and
  supplies the default port.
- **ErrorDialog** (`error_dialog.dfy`) checks the constructor's arguments,
  falls back on the throwable's message, and derives the layout from the
  reportable flag.
- **Main** (`main_startup.dfy`) holds the start-up rules:
  - the folder fallbacks and paths;
  - `%` escaping of log paths;
  - the outdated-plugin flag;
  - the `api.id` listener;
  - the show-the-review-once flag.

Shared vocabulary lives in `common.dfy`:

- Java null is `Option`;
- a thrown exception is a `Result`/`Outcome` failure;
- `ChangeType` models `List.indexOf` / `List.remove(Object)` and the list-change types.

`text.dfy` holds the String operations, over ASCII. `settings.dfy` holds the
settings store, a `map<string,string>` with integer and boolean text encodings.

Objects whose fields the source updates in place are classes. Their methods
are proved against pure specification functions, for example
`State() == AddSpec(old(State()), link)`, and the lemmas are stated about
those functions. Loops that update variables are loops here, with
invariants; loops that only collect a value from a list (such as
`getLinks(ContactList)`) are recursive functions. Events
a listener would receive are appended to an event log field.

## Model

| member | source | states |
|---|---|---|
| ContactLinks.TaskContactLinkList.constructor | TaskUnifierApi/src/com/leclercb/taskunifier/api/models/utils/TaskContactLinkList.java:96-109 | initialize collects the links of the end-user tasks only, fires nothing, and the sorted set is the sorted case-insensitive support of that list |
| ContactLinks.TaskContactLinkList.GetLinks | TaskUnifierApi/src/com/leclercb/taskunifier/api/models/utils/TaskContactLinkList.java:79-85 | getLinks returns every distinct link once, strictly ascending ignoring case, covering exactly the links present |
| ContactLinks.TaskContactLinkList.AddLink | TaskUnifierApi/src/com/leclercb/taskunifier/api/models/utils/TaskContactLinkList.java:187-211 | addLink follows AddSpec: a null link is ignored; otherwise the occurrence is appended and a new link is inserted at its rank, which the iterator loop computes, with a VALUE_ADDED event |
| ContactLinks.TaskContactLinkList.RemoveLink | TaskUnifierApi/src/com/leclercb/taskunifier/api/models/utils/TaskContactLinkList.java:219-235 | removeLink follows RemoveSpec: a null link is ignored; one occurrence is removed; the sorted entry goes, with VALUE_REMOVED at index -1, only when no occurrence is left |
| ContactLinks.TaskContactLinkList.AddLinks | TaskUnifierApi/src/com/leclercb/taskunifier/api/models/utils/TaskContactLinkList.java:181-185 | addLinks is addLink over the contacts in order and keeps the invariant |
| ContactLinks.TaskContactLinkList.RemoveLinks | TaskUnifierApi/src/com/leclercb/taskunifier/api/models/utils/TaskContactLinkList.java:213-217 | removeLinks is removeLink over the contacts in order and keeps the invariant |
| ContactLinks.TaskContactLinkList.ListChange | TaskUnifierApi/src/com/leclercb/taskunifier/api/models/utils/TaskContactLinkList.java:115-146 | an added end-user task brings its links; a removed task takes them away; an added or removed contact brings or takes its link; other change types do nothing |
| ContactLinks.TaskContactLinkList.PropertyChange | TaskUnifierApi/src/com/leclercb/taskunifier/api/models/utils/TaskContactLinkList.java:148-179 | a task entering an end-user status adds its links, one leaving it removes them, and a renamed link is removed under its old value and added under the new one |
| ContactLinks.AddKeepsInv | TaskUnifierApi/src/com/leclercb/taskunifier/api/models/utils/TaskContactLinkList.java:191-195 | after addLink the sorted set is still sorted and still equals the case-insensitive support of the list; the list gains exactly one occurrence |
| ContactLinks.RemoveKeepsInv | TaskUnifierApi/src/com/leclercb/taskunifier/api/models/utils/TaskContactLinkList.java:223-228 | after removeLink the same invariant holds; the list loses exactly one occurrence of the link |
| ContactLinks.AddFiresOnFirstOccurrence | TaskUnifierApi/src/com/leclercb/taskunifier/api/models/utils/TaskContactLinkList.java:194-210 | VALUE_ADDED fires if and only if the link was absent ignoring case; its index r has smaller links before it and larger links after it in the sorted set |
| ContactLinks.RemoveFiresOnLastOccurrence | TaskUnifierApi/src/com/leclercb/taskunifier/api/models/utils/TaskContactLinkList.java:224-233 | VALUE_REMOVED fires if and only if the link occurred exactly once, and always with index -1 |
| ContactLinks.RemoveAbsentIsNoop | TaskUnifierApi/src/com/leclercb/taskunifier/api/models/utils/TaskContactLinkList.java:219-235 | removing a link that is not present changes nothing |
| ContactLinks.AddThenRemoveRestores | TaskUnifierApi/src/com/leclercb/taskunifier/api/models/utils/TaskContactLinkList.java:187-235 | addLink followed by removeLink of the same link restores the sorted set and the multiset of links |
| ContactLinks.InsertSorted | TaskUnifierApi/src/com/leclercb/taskunifier/api/models/utils/TaskContactLinkList.java:194-195 | TreeSet.add of a new key at its rank keeps the set sorted and adds exactly that key |
| ContactLinks.RemoveFromSorted | TaskUnifierApi/src/com/leclercb/taskunifier/api/models/utils/TaskContactLinkList.java:227-228 | TreeSet.remove keeps the set sorted and drops exactly the key |
| ContactLinks.RankSplits | TaskUnifierApi/src/com/leclercb/taskunifier/api/models/utils/TaskContactLinkList.java:197-204 | in a sorted set the entries before a key are exactly its first Rank entries, which is the index the iterator loop counts |
| ContactLinks.InsertAll | TaskUnifierApi/src/com/leclercb/taskunifier/api/models/utils/TaskContactLinkList.java:108 | TreeSet.addAll keeps the set sorted and makes its support the union |
| ContactLinks.EndUserLinksMembership | TaskUnifierApi/src/com/leclercb/taskunifier/api/models/utils/TaskContactLinkList.java:96-109 | a link is collected at start-up if and only if some end-user task has a contact with that link |
| ContactLinks.NonNullLinksMembership | TaskUnifierApi/src/com/leclercb/taskunifier/api/models/utils/TaskContactLinkList.java:87-94 | getLinks(ContactList) lists a link if and only if some contact carries it, skipping null links |
| ContactLinks.RenameSpec | TaskUnifierApi/src/com/leclercb/taskunifier/api/models/utils/TaskContactLinkList.java:170-178 | a renamed link (remove old, add new) keeps the invariant |
| SearcherFactory.TaskSearcherFactory.constructor | src/com/leclercb/taskunifier/gui/searchers/TaskSearcherFactory.java:48-53 | the registry starts with no searchers, no listeners and no events |
| SearcherFactory.TaskSearcherFactory.Size | src/com/leclercb/taskunifier/gui/searchers/TaskSearcherFactory.java:55-57 | size is the number of registered entries |
| SearcherFactory.TaskSearcherFactory.GetIndexOf | src/com/leclercb/taskunifier/gui/searchers/TaskSearcherFactory.java:75-77 | getIndexOf is the first position of the searcher, or -1 exactly when it is absent; null, never registered, gives -1 |
| SearcherFactory.TaskSearcherFactory.Register | src/com/leclercb/taskunifier/gui/searchers/TaskSearcherFactory.java:89-95 | register throws on null and changes nothing; otherwise it appends and fires VALUE_ADDED with the searcher's first index |
| SearcherFactory.TaskSearcherFactory.Unregister | src/com/leclercb/taskunifier/gui/searchers/TaskSearcherFactory.java:97-105 | unregister throws on null; otherwise it removes the first occurrence and fires VALUE_REMOVED with that index; an absent searcher changes nothing |
| SearcherFactory.TaskSearcherFactory.Delete | src/com/leclercb/taskunifier/gui/searchers/TaskSearcherFactory.java:79-81 | delete is unregister |
| SearcherFactory.TaskSearcherFactory.DeleteAll | src/com/leclercb/taskunifier/gui/searchers/TaskSearcherFactory.java:83-87 | deleteAll empties the registry and fires one VALUE_REMOVED at index 0 per entry of the snapshot, in order |
| SearcherFactory.TaskSearcherFactory.Create | src/com/leclercb/taskunifier/gui/searchers/TaskSearcherFactory.java:107-111 | create returns a fresh searcher with the given title, filter and sorter, appended and announced |
| SearcherFactory.TaskSearcherFactory.AddListChangeListener | src/com/leclercb/taskunifier/gui/searchers/TaskSearcherFactory.java:119-125 | a null listener throws; a listener already present is not added twice |
| SearcherFactory.TaskSearcherFactory.RemoveListChangeListener | src/com/leclercb/taskunifier/gui/searchers/TaskSearcherFactory.java:132-135 | the listener is removed and the list stays duplicate-free; null changes nothing |
| SearcherFactory.TaskSearcherFactory.AddPropertyChangeListener | src/com/leclercb/taskunifier/gui/searchers/TaskSearcherFactory.java:142-148 | the same as for list-change listeners, on the property listener list |
| SearcherFactory.TaskSearcherFactory.RemovePropertyChangeListener | src/com/leclercb/taskunifier/gui/searchers/TaskSearcherFactory.java:155-158 | the property listener is removed and the list stays duplicate-free; null changes nothing |
| SearcherFactory.RegisterIndex | src/com/leclercb/taskunifier/gui/searchers/TaskSearcherFactory.java:91-94 | the index register reports is the earlier position when the searcher was already registered, else the new last position |
| SearcherFactory.UnregisterAfterRegister | src/com/leclercb/taskunifier/gui/searchers/TaskSearcherFactory.java:89-105 | unregistering what was just registered restores the multiset of entries, and the exact list when the searcher was new |
| SearcherFactory.RemovalEvents | src/com/leclercb/taskunifier/gui/searchers/TaskSearcherFactory.java:83-87 | the events of deleteAll: one VALUE_REMOVED at index 0 per snapshot entry |
| ColumnProperties.TaskColumnsProperties.constructor | src/com/leclercb/taskunifier/gui/components/tasks/TaskColumnsProperties.java:57-66 | every column starts blank and is loaded while still writable; afterwards each field equals what the store held under its key, or the default 0/100/true |
| ColumnProperties.TaskColumnsProperties.SetField | src/com/leclercb/taskunifier/gui/components/tasks/TaskColumnsProperties.java:184-256 | a setter follows SetSpec: an equal value returns at once; otherwise it updates the field, writes the key unless read-only (the echo through the store ends in no change) and fires old/new |
| ColumnProperties.TaskColumnsProperties.SetOrder | src/com/leclercb/taskunifier/gui/components/tasks/TaskColumnsProperties.java:184-204 | setOrder is SetSpec on the order field |
| ColumnProperties.TaskColumnsProperties.SetWidth | src/com/leclercb/taskunifier/gui/components/tasks/TaskColumnsProperties.java:210-230 | setWidth is SetSpec on the width field |
| ColumnProperties.TaskColumnsProperties.SetVisible | src/com/leclercb/taskunifier/gui/components/tasks/TaskColumnsProperties.java:236-256 | setVisible is SetSpec on the visible field |
| ColumnProperties.TaskColumnsProperties.PropertyChange | src/com/leclercb/taskunifier/gui/components/tasks/TaskColumnsProperties.java:126-157 | a store change outside the prefix, or with a null value, is ignored; a column field's key sets that field; an unparsable integer throws NumberFormatException and leaves the state as it was |
| ColumnProperties.TaskColumnsProperties.UpdateColumn | src/com/leclercb/taskunifier/gui/components/tasks/TaskColumnsProperties.java:133-154 | one pass of the listener's loop: when the key names a field of this column that field's setter runs on the parsed text, an unparsable integer fails with the state unchanged, and any other key changes nothing |
| ColumnProperties.TaskColumnsProperties.SetParsed | src/com/leclercb/taskunifier/gui/components/tasks/TaskColumnsProperties.java:140-154 | Integer.parseInt feeds setOrder and setWidth and fails on text that is not an integer; Boolean.parseBoolean feeds setVisible and never fails |
| ColumnProperties.MatchStep | src/com/leclercb/taskunifier/gui/components/tasks/TaskColumnsProperties.java:132-155 | while scanning the columns, the key names a field of column i exactly when that column and field are the first match |
| ColumnProperties.TaskColumnsProperties.SetPropertyName | src/com/leclercb/taskunifier/gui/components/tasks/TaskColumnsProperties.java:76-103 | a null name throws and changes nothing; otherwise every column is loaded under the new prefix, in declaration order, and listening resumes |
| ColumnProperties.TaskColumnsProperties.LoadColumnFromStore | src/com/leclercb/taskunifier/gui/components/tasks/TaskColumnsProperties.java:83-100 | one iteration of setPropertyName's loop: order, width and visible are set from the store |
| ColumnProperties.TaskColumnsProperties.SetReadOnly | src/com/leclercb/taskunifier/gui/components/tasks/TaskColumnsProperties.java:109-111 | only the read-only flag changes |
| ColumnProperties.TaskColumnsProperties.GetVisibleTaskColumns | src/com/leclercb/taskunifier/gui/components/tasks/TaskColumnsProperties.java:113-124 | the result holds exactly the visible columns |
| ColumnProperties.VisibleOf | src/com/leclercb/taskunifier/gui/components/tasks/TaskColumnsProperties.java:114-123 | the removal loop over all columns yields VisibleColumns |
| ColumnProperties.VisibleColumns | src/com/leclercb/taskunifier/gui/components/tasks/TaskColumnsProperties.java:113-124 | a column is in the result if and only if it is visible, and the result is no longer than the column list |
| ColumnProperties.VisibleInOrder | src/com/leclercb/taskunifier/gui/components/tasks/TaskColumnsProperties.java:113-124 | the visible columns keep their declaration order |
| ColumnProperties.VisibleStep | src/com/leclercb/taskunifier/gui/components/tasks/TaskColumnsProperties.java:117-121 | removing one invisible column's first occurrence from the remaining list advances the result by exactly one column |
| ColumnProperties.SetSpecEffect | src/com/leclercb/taskunifier/gui/components/tasks/TaskColumnsProperties.java:184-256 | a setter changes exactly its own field; it writes exactly its own key unless read-only and fires exactly one old/new event; an equal value changes nothing |
| ColumnProperties.PropertyChangeTouchesOnlyItsKey | src/com/leclercb/taskunifier/gui/components/tasks/TaskColumnsProperties.java:132-155 | a store change under one key never alters a field whose key differs |
| ColumnProperties.ChangeEchoIsNoop | src/com/leclercb/taskunifier/gui/components/tasks/TaskColumnsProperties.java:135-155 | the store echoing a field's current value under that field's own key changes nothing, so the write/echo cycle ends |
| ColumnProperties.ParseFormat | src/com/leclercb/taskunifier/gui/components/tasks/TaskColumnsProperties.java:140-154 | what a setter writes, the listener parses back to the same value |
| ColumnProperties.KeyInjective | src/com/leclercb/taskunifier/gui/components/tasks/TaskColumnsProperties.java:86-98 | for dot-free column names, equal keys mean the same column ignoring case and the same field |
| ColumnProperties.MatchFound | src/com/leclercb/taskunifier/gui/components/tasks/TaskColumnsProperties.java:132-155 | the key of a column's field is matched to exactly that column and field |
| ColumnProperties.MatchSound | src/com/leclercb/taskunifier/gui/components/tasks/TaskColumnsProperties.java:135-153 | a match names a column whose field key is the given key |
| ColumnProperties.LoadFieldEffect | src/com/leclercb/taskunifier/gui/components/tasks/TaskColumnsProperties.java:86-98 | loading a field sets it from the store and touches no other field, column or key |
| ColumnProperties.LoadColumnEffect | src/com/leclercb/taskunifier/gui/components/tasks/TaskColumnsProperties.java:84-99 | loading a column sets its three fields from the store as it was before, and touches nothing else |
| ColumnProperties.LoadReadsKeys | src/com/leclercb/taskunifier/gui/components/tasks/TaskColumnsProperties.java:83-100 | after setPropertyName every column's field equals the value stored under `<prefix>.<column>.<field>` beforehand, or the default 0/100/true |
| ColumnProperties.LoadKeepsOtherKeys | src/com/leclercb/taskunifier/gui/components/tasks/TaskColumnsProperties.java:83-100 | loading writes no store key other than the columns' own |
| ColumnProperties.LoadKeepsOtherColumns | src/com/leclercb/taskunifier/gui/components/tasks/TaskColumnsProperties.java:83-100 | loading leaves the records of columns not loaded alone |
| ColumnProperties.ReadOnlyLoadWritesNothing | src/com/leclercb/taskunifier/gui/components/tasks/TaskColumnsProperties.java:191-198 | a read-only load leaves the store unchanged |
| ColumnProperties.DistinctKeys | src/com/leclercb/taskunifier/gui/components/tasks/TaskColumnsProperties.java:135-153 | two different (column, field) pairs never share a key, so at most one branch of the loop fires |
| ConfigurationPanel.DefaultConfigurationPanel.constructor | src/com/leclercb/taskunifier/gui/components/configuration/api/DefaultConfigurationPanel.java:60-63 | a new panel has its help file and no fields |
| ConfigurationPanel.DefaultConfigurationPanel.GetField | src/com/leclercb/taskunifier/gui/components/configuration/api/DefaultConfigurationPanel.java:89-97 | a null id throws; otherwise the result is the first field with that id, or null |
| ConfigurationPanel.DefaultConfigurationPanel.ContainsId | src/com/leclercb/taskunifier/gui/components/configuration/api/DefaultConfigurationPanel.java:65-69 | a null id throws; otherwise true if and only if some field has that id |
| ConfigurationPanel.DefaultConfigurationPanel.GetValue | src/com/leclercb/taskunifier/gui/components/configuration/api/DefaultConfigurationPanel.java:71-78 | a null id throws; an unknown id throws IllegalArgumentException; otherwise the result is that field's value |
| ConfigurationPanel.DefaultConfigurationPanel.SetEnabled | src/com/leclercb/taskunifier/gui/components/configuration/api/DefaultConfigurationPanel.java:80-87 | the field with that id gets the flag; a null id or an unknown id throws; no field's value changes and the other fields keep their flag |
| ConfigurationPanel.DefaultConfigurationPanel.GetFields | src/com/leclercb/taskunifier/gui/components/configuration/api/DefaultConfigurationPanel.java:99-102 | the result is a copy of the field list |
| ConfigurationPanel.DefaultConfigurationPanel.AddField | src/com/leclercb/taskunifier/gui/components/configuration/api/DefaultConfigurationPanel.java:104-112 | a null field or id throws; a taken id throws IllegalArgumentException and changes nothing; otherwise the field is appended and the ids stay unique |
| ConfigurationPanel.DefaultConfigurationPanel.RemoveField | src/com/leclercb/taskunifier/gui/components/configuration/api/DefaultConfigurationPanel.java:114-116 | the first occurrence is removed, the rest keep their order, and the field is no longer present; null changes nothing |
| ConfigurationPanel.DefaultConfigurationPanel.SaveAndApplyConfig | src/com/leclercb/taskunifier/gui/components/configuration/api/DefaultConfigurationPanel.java:149-156 | every field of the extended type saves, in list order, and no other field does |
| ConfigurationPanel.DefaultConfigurationPanel.CancelConfig | src/com/leclercb/taskunifier/gui/components/configuration/api/DefaultConfigurationPanel.java:158-163 | every field is re-initialised, in list order |
| ConfigurationPanel.FieldIndex | src/com/leclercb/taskunifier/gui/components/configuration/api/DefaultConfigurationPanel.java:92-96 | the result is the first position with an equal id, or -1 if and only if no field has it |
| ConfigurationPanel.AddKeepsUnique | src/com/leclercb/taskunifier/gui/components/configuration/api/DefaultConfigurationPanel.java:107-111 | appending a field whose id is not taken keeps ids unique |
| ConfigurationPanel.AddFindsNewField | src/com/leclercb/taskunifier/gui/components/configuration/api/DefaultConfigurationPanel.java:104-112 | after addField, getField finds the new field by its id and every other id where it was |
| ConfigurationPanel.RemoveKeepsUnique | src/com/leclercb/taskunifier/gui/components/configuration/api/DefaultConfigurationPanel.java:114-116 | removing a field keeps ids unique, and getField no longer finds its id |
| ConfigurationPanel.SaveActions | src/com/leclercb/taskunifier/gui/components/configuration/api/DefaultConfigurationPanel.java:151-155 | the save calls are exactly the extended fields |
| ConfigurationPanel.SaveActionsAppend | src/com/leclercb/taskunifier/gui/components/configuration/api/DefaultConfigurationPanel.java:151-155 | saving a list in two parts makes the first part's calls, then the second's |
| ConfigurationPanel.InitialiseActions | src/com/leclercb/taskunifier/gui/components/configuration/api/DefaultConfigurationPanel.java:160-162 | one re-initialisation per field, position by position |
| SearcherPanel.TaskSearcherPanel.SetTitleFilter | src/com/leclercb/taskunifier/gui/components/tasksearchertree/TaskSearcherPanel.java:110-118 | an equal value (null equals null) changes nothing; otherwise the filter is stored and old/new is fired |
| SearcherPanel.TaskSearcherPanel.GetSelectedTaskSearcher | src/com/leclercb/taskunifier/gui/components/tasksearchertree/TaskSearcherPanel.java:141-185 | no selection gives null; an absent completed-last setting throws; otherwise the result is the narrowed copy, with the completed-last key when the setting is true |
| SearcherPanel.TaskSearcherPanel.TaskSearcherSelectionChange | src/com/leclercb/taskunifier/gui/components/tasksearchertree/TaskSearcherPanel.java:345-363 | a null searcher is ignored; otherwise the title filter is cleared (firing if it was set) and remove/edit are enabled exactly when the searcher is registered and its type allows it; the copy is then passed on |
| SearcherPanel.TaskSearcherPanel.constructor | src/com/leclercb/taskunifier/gui/components/tasksearchertree/TaskSearcherPanel.java:302-304 | add is enabled, remove and edit disabled, and there is no title filter |
| SearcherPanel.NarrowedFilterMeaning | src/com/leclercb/taskunifier/gui/components/tasksearchertree/TaskSearcherPanel.java:149-174 | a task passes the narrowed filter if and only if it passes the original and its title, tags or note contains the title filter |
| SearcherPanel.NarrowedFilter | src/com/leclercb/taskunifier/gui/components/tasksearchertree/TaskSearcherPanel.java:149-174 | a null or empty title filter keeps the original filter; otherwise AND of the search filter and the original |
| SearcherPanel.ComposeKeepsOriginal | src/com/leclercb/taskunifier/gui/components/tasksearchertree/TaskSearcherPanel.java:147-184 | the copy keeps id, type, order and title; its sorter extends the original by at most the completed-last key; its filter contains the original |
| SearcherPanel.NewPersonalSearcher | src/com/leclercb/taskunifier/gui/components/tasksearchertree/TaskSearcherPanel.java:239-262 | a new searcher is PERSONAL, with order Integer.MAX_VALUE, the default title, an empty filter and four sort keys ordered 1..4 |
| SearcherPanel.NewPersonalSorterOrder | src/com/leclercb/taskunifier/gui/components/tasksearchertree/TaskSearcherPanel.java:239-255 | the default sort is completed, due date, priority descending, then title, with strictly increasing orders |
| SearcherPanel.FindSavedSearcher | src/com/leclercb/taskunifier/gui/components/tasksearchertree/TaskSearcherPanel.java:375-383 | the loop with break returns the first searcher with that title and type |
| SearcherPanel.FirstMatch | src/com/leclercb/taskunifier/gui/components/tasksearchertree/TaskSearcherPanel.java:377-383 | a match has the title and type; there is none if and only if no searcher has both |
| SearcherPanel.FirstMatchIsFirst | src/com/leclercb/taskunifier/gui/components/tasksearchertree/TaskSearcherPanel.java:377-383 | a match at k with no match before it is what the search returns |
| SearcherPanel.RestoreRequests | src/com/leclercb/taskunifier/gui/components/tasksearchertree/TaskSearcherPanel.java:365-427 | restoring makes one or two requests; without a saved value and type only the default is selected; the last request is accepted or is the default, and a second request (the default) follows only a refused first one |
| SearcherPanel.RestoreTag | src/com/leclercb/taskunifier/gui/components/tasksearchertree/TaskSearcherPanel.java:391-394 | a saved TAG selection asks for that tag, and falls back on the default only when the tree refuses it |
| SearcherPanel.RestoreModel | src/com/leclercb/taskunifier/gui/components/tasksearchertree/TaskSearcherPanel.java:396-417 | a saved CONTEXT, FOLDER, GOAL or LOCATION selection asks for that model, and falls back on the default only when the tree refuses it |
| SearcherPanel.RestoreOtherType | src/com/leclercb/taskunifier/gui/components/tasksearchertree/TaskSearcherPanel.java:419-420 | any other saved type selects the default at once |
| SearcherPanel.RestoreGeneralOrPersonal | src/com/leclercb/taskunifier/gui/components/tasksearchertree/TaskSearcherPanel.java:372-389 | a saved GENERAL/PERSONAL selection selects the first matching searcher if the tree accepts it, else the default |
| PluginLicense.PluginLicense.constructor | TaskUnifierGui/src/com/leclercb/taskunifier/gui/plugins/PluginLicense.java:25-34 | the email and serial pass through their setters, so both are normalised |
| PluginLicense.PluginLicense.SetEmail | TaskUnifierGui/src/com/leclercb/taskunifier/gui/plugins/PluginLicense.java:48-53 | a non-empty email is trimmed; null and "" are stored as they are; nothing else changes |
| PluginLicense.PluginLicense.SetSerial | TaskUnifierGui/src/com/leclercb/taskunifier/gui/plugins/PluginLicense.java:59-64 | a non-empty serial is trimmed and upper-cased; null and "" are stored as they are |
| PluginLicense.PluginLicense.CheckLicense | TaskUnifierGui/src/com/leclercb/taskunifier/gui/plugins/PluginLicense.java:78-114 | the answer, the serial held afterwards and the number of server requests are those of CheckSpec on the email and serial held before; email, cipher and plugin id are unchanged |
| PluginLicense.FetchOnlyWhenInvalid | TaskUnifierGui/src/com/leclercb/taskunifier/gui/plugins/PluginLicense.java:78-86 | the server is asked exactly when the email is set, getLicense is true and the serial held is not a valid licence |
| PluginLicense.CheckAnswer | TaskUnifierGui/src/com/leclercb/taskunifier/gui/plugins/PluginLicense.java:78-127 | only a failed server request throws, leaving the serial as it was; otherwise the answer is whether the serial checked (the held one, or the trimmed server answer when asked) is valid, and a true answer leaves that serial normalised while a false one leaves it as it is |
| PluginLicense.ValidSerialNeedsNoFetch | TaskUnifierGui/src/com/leclercb/taskunifier/gui/plugins/PluginLicense.java:78-96 | a valid serial answers true and is normalised without any server request, whatever getLicense says |
| PluginLicense.NormalizeEmail | TaskUnifierGui/src/com/leclercb/taskunifier/gui/plugins/PluginLicense.java:48-53 | null and "" are kept; any other email is no longer after trimming |
| PluginLicense.NormalizeSerial | TaskUnifierGui/src/com/leclercb/taskunifier/gui/plugins/PluginLicense.java:59-64 | null and "" are kept; any other serial is no longer after trimming and upper-casing |
| PluginLicense.NormalizeEmailIdempotent | TaskUnifierGui/src/com/leclercb/taskunifier/gui/plugins/PluginLicense.java:48-53 | setting an email twice stores what setting it once does |
| PluginLicense.NormalizeSerialIdempotent | TaskUnifierGui/src/com/leclercb/taskunifier/gui/plugins/PluginLicense.java:59-64 | setting a serial twice stores what setting it once does |
| PluginLicense.NormalizedSerialShape | TaskUnifierGui/src/com/leclercb/taskunifier/gui/plugins/PluginLicense.java:59-64 | a normalised serial has no lower-case letter and no blank at either end |
| PluginLicense.ValidLicenseExactly | TaskUnifierGui/src/com/leclercb/taskunifier/gui/plugins/PluginLicense.java:116-127 | for a non-empty email the licence is valid if and only if the serial equals the non-empty upper-cased SHA-1 hex of email followed by cipher |
| TemplateFilter.NoFilterIncludesAll | src/com/leclercb/taskunifier/gui/components/templates/TemplateRowFilter.java:42-43 | a null filter includes every template |
| TemplateFilter.EmptyFilterIncludesAll | src/com/leclercb/taskunifier/gui/components/templates/TemplateRowFilter.java:45-46 | the empty filter includes every template |
| TemplateFilter.CaseInsensitive | src/com/leclercb/taskunifier/gui/components/templates/TemplateRowFilter.java:45-46 | filters equal ignoring case include the same templates |
| TemplateFilter.TitleCaseInsensitive | src/com/leclercb/taskunifier/gui/components/templates/TemplateRowFilter.java:45-46 | titles equal ignoring case are included alike |
| TemplateFilter.LongerFilterIncludesLess | src/com/leclercb/taskunifier/gui/components/templates/TemplateRowFilter.java:45-46 | a template included by a longer filter is included by every prefix of it |
| TemplateFilter.TemplateRowFilter.SetTitle | src/com/leclercb/taskunifier/gui/components/templates/TemplateRowFilter.java:28-35 | the title is stored and an event carrying the previous and new title is fired |
| TemplateFilter.TemplateRowFilter.Include | src/com/leclercb/taskunifier/gui/components/templates/TemplateRowFilter.java:37-47 | include is Includes of the current filter; with no filter or the empty filter it is true |
| PriorityModel.GenerateArrayLength | TaskUnifierGui/src/com/leclercb/taskunifier/gui/commons/models/TaskPriorityModel.java:61-63 | the array has one entry per priority, plus one when firstNull |
| PriorityModel.GenerateArrayEntries | TaskUnifierGui/src/com/leclercb/taskunifier/gui/commons/models/TaskPriorityModel.java:60-68 | entry i is the priority declared i-th from the end |
| PriorityModel.GenerateArrayNulls | TaskUnifierGui/src/com/leclercb/taskunifier/gui/commons/models/TaskPriorityModel.java:61-65 | an entry is null if and only if firstNull is set and it is the last entry |
| PriorityModel.GenerateArrayFirst | TaskUnifierGui/src/com/leclercb/taskunifier/gui/commons/models/TaskPriorityModel.java:65 | the first entry is the last-declared priority |
| PriorityModel.GenerateArrayUnreversed | TaskUnifierGui/src/com/leclercb/taskunifier/gui/commons/models/TaskPriorityModel.java:61-65 | reversing the array gives back ([null] if firstNull) followed by the priorities |
| PriorityModel.ReverseReverse | TaskUnifierGui/src/com/leclercb/taskunifier/gui/commons/models/TaskPriorityModel.java:65 | reversing twice is the identity |
| PriorityModel.RefreshRange | TaskUnifierGui/src/com/leclercb/taskunifier/gui/commons/models/TaskPriorityModel.java:53-58 | a refresh of the whole range 0..size-1 happens if and only if the key starts with "theme.color.priority" |
| PriorityModel.RefreshKeys | TaskUnifierGui/src/com/leclercb/taskunifier/gui/commons/models/TaskPriorityModel.java:55 | the refreshing keys are exactly "theme.color.priority" followed by anything |
| TagModel.TaskTagModel.constructor | src/com/leclercb/taskunifier/gui/commons/models/TaskTagModel.java:46-54 | the model holds the tag list's tags, in the same order |
| TagModel.TaskTagModel.ListChange | src/com/leclercb/taskunifier/gui/commons/models/TaskTagModel.java:56-64 | listChange applies ApplyChange, where the removal is the first-match search loop |
| TagModel.ApplyChange | src/com/leclercb/taskunifier/gui/commons/models/TaskTagModel.java:57-64 | VALUE_ADDED adds one entry of the tag's key and VALUE_REMOVED removes one (nothing when absent); other change types change nothing |
| TagModel.AddAppends | src/com/leclercb/taskunifier/gui/commons/models/TaskTagModel.java:60-61 | an added tag goes at the end whatever the event's index, and the entries before it stay |
| TagModel.RemoveDropsFirstMatch | src/com/leclercb/taskunifier/gui/commons/models/TaskTagModel.java:62-63 | a removal drops exactly the first entry equal ignoring case, keeping the rest in order |
| TagModel.AddThenRemove | src/com/leclercb/taskunifier/gui/commons/models/TaskTagModel.java:57-64 | adding a tag not yet present and then removing it restores the entries |
| SleepTimeField.GetPropertyValue | src/com/leclercb/taskunifier/gui/components/configuration/fields/synchronization/SchedulerSleepTimeFieldType.java:25-28 | the stored milliseconds divided by 1000 toward zero and cast to int; an absent or non-long value fails |
| SleepTimeField.SaveAndApply | src/com/leclercb/taskunifier/gui/components/configuration/fields/synchronization/SchedulerSleepTimeFieldType.java:30-35 | saving writes seconds times 1000 under the key and no other key |
| SleepTimeField.SecondsTruncate | src/com/leclercb/taskunifier/gui/components/configuration/fields/synchronization/SchedulerSleepTimeFieldType.java:27 | the displayed seconds are the milliseconds truncated toward zero |
| SleepTimeField.SaveThenRead | src/com/leclercb/taskunifier/gui/components/configuration/fields/synchronization/SchedulerSleepTimeFieldType.java:27-34 | saving then reading returns the saved seconds exactly |
| SleepTimeField.ReadThenSaveDropsRemainder | src/com/leclercb/taskunifier/gui/components/configuration/fields/synchronization/SchedulerSleepTimeFieldType.java:27-34 | reading then saving stores the milliseconds less their Java remainder by 1000 |
| SleepTimeField.ReadSaveIdempotent | src/com/leclercb/taskunifier/gui/components/configuration/fields/synchronization/SchedulerSleepTimeFieldType.java:27-34 | after one read/save cycle, further cycles change nothing |
| SleepTimeField.ToInt | src/com/leclercb/taskunifier/gui/components/configuration/fields/synchronization/SchedulerSleepTimeFieldType.java:27 | the (int) cast yields a 32-bit value congruent to its argument, and keeps values that already fit |
| SleepTimeField.SpinnerValue | src/com/leclercb/taskunifier/gui/components/configuration/fields/synchronization/SchedulerSleepTimeFieldType.java:16-20 | the spinner accepts an initial value if and only if it lies within 10..18000 |
| SleepTimeField.StepsStayInRange | src/com/leclercb/taskunifier/gui/components/configuration/fields/synchronization/SchedulerSleepTimeFieldType.java:16-20 | steps of 60 keep the value within 10..18000 and undo each other; no step up exists above 17940 |
| SleepTimeField.Construct | src/com/leclercb/taskunifier/gui/components/configuration/fields/synchronization/SchedulerSleepTimeFieldType.java:13-23 | a built field holds the stored seconds, within the spinner's bounds |
| SleepTimeField.SaveThenConstruct | src/com/leclercb/taskunifier/gui/components/configuration/fields/synchronization/SchedulerSleepTimeFieldType.java:13-34 | any spinner value survives a save and a rebuild of the field |
| ProxyPortField.GetPropertyValue | src/com/leclercb/taskunifier/gui/components/configuration/fields/proxy/ProxyPortFieldType.java:18-24 | a set port reads back verbatim; an unset port reads as "0" |
| ProxyPortField.SaveAndApply | src/com/leclercb/taskunifier/gui/components/configuration/fields/proxy/ProxyPortFieldType.java:26-29 | saving writes the field text unchanged under "proxy.port" and no other key |
| ProxyPortField.SaveThenRead | src/com/leclercb/taskunifier/gui/components/configuration/fields/proxy/ProxyPortFieldType.java:20-28 | a saved port reads back verbatim |
| ProxyPortField.AcceptedPortRange | src/com/leclercb/taskunifier/gui/components/configuration/fields/proxy/ProxyPortFieldType.java:13 | text matching ^[0-9]{1,4}$ is unsigned, non-empty, parses as an integer and is at most 9999 |
| ProxyPortField.DefaultAccepted | src/com/leclercb/taskunifier/gui/components/configuration/fields/proxy/ProxyPortFieldType.java:13-23 | the default "0" matches the pattern and means port 0 |
| ProxyPortField.ReadAccepted | src/com/leclercb/taskunifier/gui/components/configuration/fields/proxy/ProxyPortFieldType.java:13-28 | after saving accepted text, or on an empty store, the value shown is accepted |
| ProxyPortField.DigitsBound | src/com/leclercb/taskunifier/gui/components/configuration/fields/proxy/ProxyPortFieldType.java:13 | n decimal digits denote less than 10^n |
| ErrorDialog.Create | src/com/leclercb/taskunifier/gui/components/error/ErrorDialog.java:34-57 | a failure is always IllegalArgumentException; a success keeps the flag and the throwable, and any non-null message |
| ErrorDialog.CreateSucceedsIff | src/com/leclercb/taskunifier/gui/components/error/ErrorDialog.java:41-47 | construction succeeds if and only if there is a throwable, or a message and the error is not reportable |
| ErrorDialog.MessageFallback | src/com/leclercb/taskunifier/gui/components/error/ErrorDialog.java:49-50 | a null message is replaced by the throwable's message |
| ErrorDialog.ReportableHasThrowable | src/com/leclercb/taskunifier/gui/components/error/ErrorDialog.java:41-43 | every reportable dialog built holds a throwable |
| ErrorDialog.LayoutOf | src/com/leclercb/taskunifier/gui/components/error/ErrorDialog.java:60-154 | width 500, height 400 when reportable and 180 otherwise; the stack-trace pane and the report button are present if and only if reportable |
| ErrorDialog.CreatedDialogLayout | src/com/leclercb/taskunifier/gui/components/error/ErrorDialog.java:41-102 | every built dialog can be laid out, and shows its throwable's stack trace exactly when reportable |
| Startup.ResourcesFolder | src/com/leclercb/taskunifier/gui/main/Main.java:256-260 | the system property, or "resources" when it is absent |
| Startup.DataFolder | src/com/leclercb/taskunifier/gui/main/Main.java:282-289 | the init setting first, then the system property, then "data" |
| Startup.Child | src/com/leclercb/taskunifier/gui/main/Main.java:123-129 | a path is the folder, the separator, then the name |
| Startup.DataFolderLayout | src/com/leclercb/taskunifier/gui/main/Main.java:127-129 | the settings file and the plugins folder share the data-folder prefix and differ |
| Startup.EscapeLength | src/com/leclercb/taskunifier/gui/main/Main.java:337-339 | escaping adds exactly one character per '%' |
| Startup.EscapeRoundTrip | src/com/leclercb/taskunifier/gui/main/Main.java:337-339 | un-doubling an escaped path gives back the original |
| Startup.EscapeWithoutPercent | src/com/leclercb/taskunifier/gui/main/Main.java:337-339 | a path without '%' is unchanged |
| Startup.LogFiles | src/com/leclercb/taskunifier/gui/main/Main.java:327-339 | there are three log file patterns |
| Startup.LogFilesNameTheirFiles | src/com/leclercb/taskunifier/gui/main/Main.java:327-339 | each log pattern, un-escaped, names the API, GUI and plugin log file under the data folder |
| Startup.LoadPluginFiles | src/com/leclercb/taskunifier/gui/main/Main.java:671-690 | with a plugins directory every file is tried, in order, whatever fails; the flag is true if and only if some load raised OUTDATED_PLUGIN; without a directory nothing is tried |
| Startup.ApiIdAfterChange | src/com/leclercb/taskunifier/gui/main/Main.java:692-712 | the listener changes no setting but "api.id" |
| Startup.AddedPluginSelected | src/com/leclercb/taskunifier/gui/main/Main.java:698-700 | adding a plugin makes its id the selected api.id |
| Startup.RemovedPluginDeselected | src/com/leclercb/taskunifier/gui/main/Main.java:702-709 | removing the selected plugin selects the dummy plugin; removing another changes nothing |
| Startup.AddThenRemoveSelectsDummy | src/com/leclercb/taskunifier/gui/main/Main.java:698-709 | a plugin added and removed again leaves the dummy plugin selected |
| Startup.ApiPluginsListChange | src/com/leclercb/taskunifier/gui/main/Main.java:695-710 | the listener on the shared settings object applies ApiIdAfterChange |
| Startup.ReviewAtStartup | src/com/leclercb/taskunifier/gui/main/Main.java:227-231 | the review is shown exactly when "review.showed" is absent or false, and the flag is true afterwards |
| Startup.ReviewShownOnce | src/com/leclercb/taskunifier/gui/main/Main.java:227-231 | the start-up after a review never shows it again |

## Left out

- Swing components, layout, dialogs and look and feel: `ErrorDialog.initialize` appears only as the `Layout` it derives. Report-file writing, the help button and `pack` are not modelled.
- File-system work is not modelled: creating folders, permissions, properties loading, `FileHandler` and the existence checks in `Main`. The outcome of `PluginsUtils.loadPlugin` for each file is an input.
- System properties, `File.separator`, the plugin list and the tree view's answers to selection requests are all inputs.
- The licence server request (`getLicense`) is the input `fetched`. `DigestUtils.shaHex` is the uninterpreted function parameter `sha1Hex`.
- `toLowerCase`, `toUpperCase` and `trim` are modelled over ASCII letters and characters up to ' ' only, not Java's full Unicode mapping.
- Listener registration and event delivery are not modelled: fired events are appended to an event log. Weak listeners and the `synchronized` modifiers on `TaskSearcherFactory` are not modelled either.
- `TaskColumn`, `TaskSearcherType`, `TaskFilter`, `TaskSorter` and the settings store are not part of this model's source. Their stand-ins are:
  - columns are a sequence of names;
  - searcher types are a datatype, with `isDeletable`/`isEditable` as the sets `deletable`/`editable`;
  - a filter is a tree datatype;
  - a sorter is a sequence of (order, column, direction);
  - the store is a `map<string,string>`.
- The meaning of a filter (`SearcherPanel.Eval`) is read from the link names AND and OR. `TaskFilter`'s own evaluation code is not part of this model.
- `TaskSearcher.clone()` is taken to copy the sorter, so the handed-out copy never changes the selected searcher.
- `TaskSearcherFactory.contains(id)`, used by the panel, is the set `registeredIds`.
- A `ConfigurationField`'s value is a string, and its type's `saveAndApplyConfig` / `initializeFieldComponent` calls are logged as actions. The fields' own saving is modelled separately for the sleep-time and proxy-port fields.
- The settings store's own change events fire on every write. The store's other listeners are not modelled.
- `TaskColumnsProperties.get`, `getPropertyName`, `isReadOnly` and the searcher-panel actions other than `addAction`'s sorter are not modelled. This includes `refreshTaskSearcher`, `saveProperties`, `openTaskSearcherEdit` and the remove action.
- `ColumnProperties.TaskColumnsProperties.constructor`: the `CheckUtils.isNotNull(propertyName)` failure is modelled only on `SetPropertyName`, since the constructor takes a non-null name here.
- `ColumnProperties.TaskColumnsProperties.GetVisibleTaskColumns`: the loop that removes invisible columns is the module-level method `ColumnProperties.VisibleOf`, which the class method calls.
- `TemplateFilter.TemplateRowFilter.SetTitle` fires on every call, even when the title is unchanged. Whether the commons `PropertyChangeSupport` suppresses equal values is not part of this model.
- `SleepTimeField.GetPropertyValue`: `getLongProperty` is taken to return null for an absent key, which unboxing turns into a NullPointerException. A text that is not a long is taken to throw NumberFormatException.
- Integer widths: `order` and `width` of columns, searcher orders and parsed integers are unbounded. Integer.parseInt overflow is not modelled. The sleep-time field models its int cast and long product explicitly.
- `SearcherPanel.RestoreRequests`: decoding a model id and looking the model up in its factory are folded into the tree's answer to `SelectModel`. An exception inside `initializeSelectedSearcher` falls back to the default selection, which is that same outcome.
- `Startup.LoadPluginFiles`: adding the dummy plugin happens before the listener is attached, so it does not touch `api.id`. That step is not modelled.
- `Settings.GetInt` and `Settings.GetBool`: the settings class is not part of this model. `getIntegerProperty(key, default)` is taken to return the default for text that is not an integer, and `getBooleanProperty` to read any text other than "true" (ignoring case) as false, as `Boolean.parseBoolean` does.
- `SearcherFactory.TaskSearcherFactory` and `ConfigurationPanel.DefaultConfigurationPanel.RemoveField`: `List.indexOf` and `List.remove` compare with `equals()`. The `equals()` of `TaskSearcher` and `ConfigurationField` is not part of this model, so both are taken to be object identity.
- `SearcherTypes.EmptyFilter`: `new TaskFilter()` is taken to start with the AND link, so an empty filter accepts every task. `TaskFilter`'s constructor is not part of this model.
- Java `Object` identity of `IgnoreCaseString` entries is not modelled. Entries are strings compared by their lower-cased form.
