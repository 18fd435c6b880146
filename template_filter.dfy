/** TemplateRowFilter: the row filter of the template list. It keeps a
    title filter and includes a template when the template's title
    contains the filter, ignoring case; no filter includes everything. */
module TemplateFilter {
  import opened Common
  import opened Text

  /** include: with no filter every template is included; otherwise the
      lower-cased title must contain the lower-cased filter. */
  predicate Includes(filter: Option<string>, templateTitle: string) {
    filter.None? || Contains(Lower(templateTitle), Lower(filter.value))
  }

  /** A null filter includes every template. */
  lemma NoFilterIncludesAll(templateTitle: string)
    ensures Includes(None, templateTitle)
  {
  }

  /** The empty filter includes every template: "" occurs at position 0. */
  lemma EmptyFilterIncludesAll(templateTitle: string)
    ensures Includes(Some(""), templateTitle)
  {
    assert OccursAt(Lower(templateTitle), Lower(""), 0);
  }

  /** Filters that differ only in letter case include the same templates. */
  lemma CaseInsensitive(a: string, b: string, templateTitle: string)
    requires Lower(a) == Lower(b)
    ensures Includes(Some(a), templateTitle) <==> Includes(Some(b), templateTitle)
  {
  }

  /** The template's own letter case does not matter either. */
  lemma TitleCaseInsensitive(filter: Option<string>, a: string, b: string)
    requires Lower(a) == Lower(b)
    ensures Includes(filter, a) <==> Includes(filter, b)
  {
  }

  /** Appending characters to the filter never includes more templates. */
  lemma LongerFilterIncludesLess(filter: string, more: string, templateTitle: string)
    requires Includes(Some(filter + more), templateTitle)
    ensures Includes(Some(filter), templateTitle)
  {
    var t := Lower(templateTitle);
    LowerAppend(filter, more);
    var i :| 0 <= i <= |t| && OccursAt(t, Lower(filter) + Lower(more), i);
    PrefixOccurs(t, Lower(filter), Lower(more), i);
  }

  /** Where a + b occurs, a occurs too. */
  lemma PrefixOccurs(t: string, a: string, b: string, i: int)
    requires OccursAt(t, a + b, i)
    ensures OccursAt(t, a, i)
  {
    assert t[i..i + |a|] == t[i..i + |a + b|][..|a|];
  }

  /** The event setTitle fires: the property's previous and new value. */
  datatype TitleChange = TitleChange(oldTitle: Option<string>, newTitle: Option<string>)

  class TemplateRowFilter {
    var title: Option<string>
    /** The "title" property changes fired, oldest first. */
    var events: seq<TitleChange>

    constructor ()
      ensures title == None && events == []
    {
      title, events := None, [];
    }

    /** setTitle: stores the new filter and fires a change carrying the
        previous one, whether or not the two differ. */
    method SetTitle(title: Option<string>)
      modifies this
      ensures this.title == title
      ensures events == old(events) + [TitleChange(old(this.title), title)]
    {
      var oldTitle := this.title;
      this.title := title;
      events := events + [TitleChange(oldTitle, title)];
    }

    /** include, for the template whose title is given. */
    method Include(templateTitle: string) returns (r: bool)
      ensures r == Includes(title, templateTitle)
      ensures title.None? ==> r
      ensures title == Some("") ==> r
    {
      if title.None? {
        return true;
      }
      EmptyFilterIncludesAll(templateTitle);
      r := Contains(Lower(templateTitle), Lower(title.value));
    }
  }
}
