/** The value types a task searcher is made of: a filter tree of conditions
    over task columns joined by AND/OR links, and a sorter, an ordered list
    of (order, column, direction) elements. Only the columns and conditions
    the core mentions are named; the rest of the enumerations are folded into
    one catch-all constructor each. */
module SearcherTypes {

  datatype TaskColumn =
    | TITLE | TAGS | NOTE | COMPLETED | DUE_DATE | PRIORITY
    | OtherColumn(name: string)

  datatype StringCondition = CONTAINS | OtherCondition(name: string)

  datatype FilterLink = AND | OR

  /** One condition of a filter: column, condition, compared value. */
  datatype FilterElement = FilterElement(column: TaskColumn, condition: StringCondition, value: string)

  /** A filter: its link, its own conditions and its nested filters. */
  datatype TaskFilter = TaskFilter(link: FilterLink, elements: seq<FilterElement>, filters: seq<TaskFilter>)

  /** new TaskFilter(): no conditions, no sub-filters, linked by AND. */
  const EmptyFilter := TaskFilter(AND, [], [])

  datatype SortOrder = ASCENDING | DESCENDING

  datatype SorterElement = SorterElement(order: int, column: TaskColumn, direction: SortOrder)

  /** A sorter: its elements in the order they were added. */
  datatype TaskSorter = TaskSorter(elements: seq<SorterElement>)
}
