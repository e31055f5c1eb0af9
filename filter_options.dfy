/** The options of the author and genre drop-downs of the search form. */
module FilterOptions {
  import opened Catalogue

  /** Which table the options are built from; the page tells the two apart by
      comparing the table with the author table. */
  datatype FilterKind = Authors | Genres

  function KindName(kind: FilterKind): string {
    match kind
    case Authors => "Authors"
    case Genres => "Genres"
  }

  /** One `<option>` element: the value submitted and the text shown. */
  datatype FilterOption = FilterOption(value: string, text: string)

  /** The option list for a table: a leading "any" option labelled "All
      Authors" or "All Genres", then one option per table entry. */
  function OptionList(kind: FilterKind, table: Table): seq<FilterOption> {
    [FilterOption("any", "All " + KindName(kind))] +
    seq(|table|, i requires 0 <= i < |table| => FilterOption(table[i].key, table[i].name))
  }

  /** The list has one option more than the table has entries, the first is
      "any", and entry `i` of the table is option `i + 1`, in the table's
      order. */
  lemma OptionListShape(kind: FilterKind, table: Table)
    ensures |OptionList(kind, table)| == |table| + 1
    ensures OptionList(kind, table)[0] == FilterOption("any", "All " + KindName(kind))
    ensures forall i :: 0 <= i < |table| ==>
              OptionList(kind, table)[i + 1] == FilterOption(table[i].key, table[i].name)
  {
  }

  /** `generateFilter`: the loop that appends one option per table entry
      after the leading "any" option. */
  method GenerateFilter(kind: FilterKind, table: Table) returns (options: seq<FilterOption>)
    ensures options == OptionList(kind, table)
  {
    options := [FilterOption("any", "All " + KindName(kind))];
    var i := 0;
    while i < |table|
      invariant 0 <= i <= |table|
      invariant |options| == i + 1
      invariant options[0] == FilterOption("any", "All " + KindName(kind))
      invariant forall k :: 0 <= k < i ==> options[k + 1] == FilterOption(table[k].key, table[k].name)
    {
      options := options + [FilterOption(table[i].key, table[i].name)];
      i := i + 1;
    }
  }
}
