/** The per-document annotation and how it is resolved into the text of the
    exported annotation column. */
module Annotations {
  import opened Wrappers
  import opened Strings

  /** A stored annotation: the `DefaultCategoryMarker` sentinel, which stands
      for whatever the default category is when it is read, or an explicit
      list of category labels. The source stores a plain `str` through
      `set_curr_category` but resolves entries as `list[str]` (where a `str`
      would be joined character by character); the model follows the list
      typing of `_resolve_categories`. */
  datatype Annotation = DefaultMarker | Explicit(labels: seq<string>)

  /** The default used when saving: the default category, or `''` when it is
      unset or empty. */
  function DefaultCategoriesString(defaultCategory: Option<string>): (r: string)
    ensures defaultCategory.None? ==> r == ""
    ensures defaultCategory.Some? ==> r == defaultCategory.value
  {
    if defaultCategory.Some? && defaultCategory.value != "" then defaultCategory.value else ""
  }

  /** `_resolve_categories`: `','.join` of an explicit list; joining the
      sentinel raises `TypeError`, which is answered with the default string.
      A non-empty list of comma-free labels can be read back from its cell. */
  function ResolveCategories(a: Annotation, defaultStr: string): (r: string)
    ensures a.DefaultMarker? ==> r == defaultStr
    ensures a.Explicit? && a.labels == [] ==> r == ""
    ensures a.Explicit? && |a.labels| == 1 ==> r == a.labels[0]
    ensures a.Explicit? && |a.labels| >= 1 && (forall k :: 0 <= k < |a.labels| ==> ',' !in a.labels[k]) ==>
      Split(r, ',') == a.labels
  {
    match a
    case DefaultMarker => defaultStr
    case Explicit(labels) =>
      if |labels| >= 1 && (forall k :: 0 <= k < |labels| ==> ',' !in labels[k]) then
        SplitJoin(labels, ',');
        Join(labels, ',')
      else
        Join(labels, ',')
  }

  /** The exported column: one resolved entry per document, in index order. */
  function ExportColumn(annotations: seq<Annotation>, defaultStr: string): (col: seq<string>)
    ensures |col| == |annotations|
    ensures forall i :: 0 <= i < |annotations| ==> col[i] == ResolveCategories(annotations[i], defaultStr)
    decreases |annotations|
  {
    if annotations == [] then []
    else [ResolveCategories(annotations[0], defaultStr)] + ExportColumn(annotations[1..], defaultStr)
  }
}
