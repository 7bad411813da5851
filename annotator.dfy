/** The annotation session held by one annotator: the selected corpus, the
    per-document annotations, the navigation cursor, the category registry
    and the default category. */
module AnnotatorState {
  import opened Wrappers
  import opened Strings
  import opened CategoryList
  import opened Navigation
  import opened ColumnNames
  import opened Annotations

  /** `MIN_DOCUMENT_IDX`: documents are numbered from 1. */
  const MinDocumentIdx: int := 1

  /** What the annotator uses of a corpus: an identity token (the source
      compares corpora with `==`), the name of its document column, its
      metadata column names and its number of documents. */
  datatype Corpus = Corpus(id: nat, docCol: string, metas: seq<string>, size: nat)

  /** The dynamically typed value `get_document_category` returns: a string,
      `None` (the sentinel read while no default is set), or a stored label
      list. */
  datatype CategoryValue = Text(text: string) | NoneValue | Labels(labels: seq<string>)

  /** The value shown for the default category. */
  function DefaultValue(defaultCategory: Option<string>): CategoryValue
  {
    if defaultCategory.None? then NoneValue else Text(defaultCategory.value)
  }

  /** The text a category value is saved as: strings as they are, `None` as
      the empty string, a label list comma-joined. */
  function CellText(v: CategoryValue): string
  {
    match v
    case Text(s) => s
    case NoneValue => ""
    case Labels(labels) => Join(labels, ',')
  }

  /** The warning `add_category` shows, if any. */
  datatype AddOutcome = Added | AlreadyAddedWarning | EmptyCategoryWarning

  /** What saving produces: the "No corpus selected" warning, or the new
      corpus. */
  datatype SaveOutcome = NoCorpusWarning | Saved(saved: SavedCorpus)

  /** The corpus `save_as_corpus` hands to the corpus collection: a clone of
      `source` under `name` (`None`: a generated name), with the metadata
      column `removedMeta` dropped when overwriting, and the annotation column
      `column` added under `columnName`. */
  datatype SavedCorpus = SavedCorpus(
    source: Corpus,
    name: Option<string>,
    removedMeta: Option<string>,
    columnName: string,
    column: seq<string>)

  class Annotator {
    var corpus: Option<Corpus>
    /** The annotation series; document `i` is entry `i - 1`. */
    var annotations: Option<seq<Annotation>>
    var currDocumentIdx: int
    var categories: seq<string>
    var defaultCategory: Option<string>
    /** How many times `update_displays` has refreshed the views. */
    var displayUpdates: nat

    /** The session invariant: annotations exist exactly while a corpus is
        selected, one per document; the cursor lies within the index bounds;
        the registry holds unique non-empty names. */
    ghost predicate Valid()
      reads this
    {
      (corpus.Some? <==> annotations.Some?) &&
      (corpus.Some? ==> corpus.value.size >= 1 && |annotations.value| == corpus.value.size) &&
      MinDocumentIdx <= currDocumentIdx &&
      (annotations.None? ==> currDocumentIdx == MinDocumentIdx) &&
      (annotations.Some? ==> currDocumentIdx <= |annotations.value|) &&
      WellFormed(categories)
    }

    constructor ()
      ensures Valid()
      ensures corpus.None? && annotations.None? && currDocumentIdx == MinDocumentIdx
      ensures categories == [] && defaultCategory.None? && displayUpdates == 0
    {
      corpus := None;
      annotations := None;
      currDocumentIdx := MinDocumentIdx;
      categories := [];
      defaultCategory := None;
      displayUpdates := 0;
    }

    method UpdateDisplays()
      modifies this`displayUpdates
      ensures displayUpdates == old(displayUpdates) + 1
    {
      displayUpdates := displayUpdates + 1;
    }

    /** Selecting the corpus that is already selected changes nothing and does
        not refresh the views; any other selection resets the store to one
        sentinel per document (or clears it) and moves the cursor to the first
        document. */
    method SetSelectedCorpus(c: Option<Corpus>)
      requires Valid()
      requires c.Some? ==> c.value.size >= 1
      modifies this
      ensures Valid()
      ensures c == old(corpus) ==> unchanged(this)
      ensures c != old(corpus) ==>
        corpus == c && currDocumentIdx == MinDocumentIdx && displayUpdates == old(displayUpdates) + 1
      ensures c != old(corpus) && c.None? ==> annotations.None?
      ensures c != old(corpus) && c.Some? ==>
        annotations.Some? && |annotations.value| == c.value.size &&
        forall i :: 0 <= i < c.value.size ==> annotations.value[i] == DefaultMarker
      ensures categories == old(categories) && defaultCategory == old(defaultCategory)
      ensures c != old(corpus) && c.None? ==> forall i :: GetDocumentCategory(i) == Ok(Text(""))
      ensures c != old(corpus) && c.Some? ==>
        forall i :: 1 <= i <= c.value.size ==> GetDocumentCategory(i) == Ok(DefaultValue(defaultCategory))
    {
      if c == corpus {
        return;
      } else if c.None? {
        corpus := None;
        annotations := None;
      } else {
        corpus := c;
        annotations := Some(seq(c.value.size, _ => DefaultMarker));
      }
      currDocumentIdx := MinDocumentIdx;
      UpdateDisplays();
    }

    function GetCurrDocumentIdx(): (r: int)
      reads this
      requires Valid()
      ensures GetMinDocumentIdx() <= r <= GetMaxDocumentIdx()
    {
      currDocumentIdx
    }

    /** The lowest index of the annotation series, 1 also when there is none. */
    function GetMinDocumentIdx(): (r: int)
      reads this
      requires Valid()
      ensures r == MinDocumentIdx
      ensures corpus.Some? ==> r <= corpus.value.size
    {
      MinDocumentIdx
    }

    /** The highest index of the annotation series: the number of documents of
        the selected corpus, and 1 without a corpus. */
    function GetMaxDocumentIdx(): (r: int)
      reads this
      requires Valid()
      ensures corpus.None? ==> r == MinDocumentIdx
      ensures corpus.Some? ==> r == corpus.value.size
    {
      if annotations.None? then MinDocumentIdx else |annotations.value|
    }

    /** A copy of the registry. */
    function GetAllCategories(): (r: seq<string>)
      reads this
      requires Valid()
      ensures r == categories
      ensures WellFormed(r)
    {
      categories
    }

    function GetDefaultCategory(): Option<string>
      reads this
    {
      defaultCategory
    }

    /** The category of a document: `''` without a corpus, the current default
        for a sentinel entry, the stored labels for an explicit entry, and a
        `KeyError` for an index the series does not have. */
    function GetDocumentCategory(documentIdx: int): (r: Result<CategoryValue>)
      reads this
      requires Valid()
      ensures corpus.None? ==> r == Ok(Text(""))
      ensures r.KeyError? <==> corpus.Some? && !(MinDocumentIdx <= documentIdx <= corpus.value.size)
      ensures r.Ok? && corpus.Some? ==> 1 <= documentIdx <= |annotations.value|
      ensures r.Ok? && corpus.Some? && annotations.value[documentIdx - 1] == DefaultMarker ==>
        r.value == DefaultValue(defaultCategory)
      ensures r.Ok? && corpus.Some? && annotations.value[documentIdx - 1].Explicit? ==>
        r.value == Labels(annotations.value[documentIdx - 1].labels)
    {
      if annotations.None? then Ok(Text(""))
      else if !(1 <= documentIdx <= |annotations.value|) then KeyError(documentIdx)
      else
        match annotations.value[documentIdx - 1]
        case DefaultMarker => Ok(DefaultValue(GetDefaultCategory()))
        case Explicit(labels) => Ok(Labels(labels))
    }

    /** The category of the current document, which always exists. */
    function GetCurrCategory(): (r: Result<CategoryValue>)
      reads this
      requires Valid()
      ensures r.Ok?
      ensures r == GetDocumentCategory(currDocumentIdx)
    {
      GetDocumentCategory(currDocumentIdx)
    }

    /** The document column followed by the metadata columns, or nothing
        without a corpus. */
    function GetAllMetas(): (r: seq<string>)
      reads this
      ensures corpus.None? <==> r == []
      ensures corpus.Some? ==> |r| == |corpus.value.metas| + 1 && r[0] == corpus.value.docCol && r[1..] == corpus.value.metas
    {
      if corpus.None? then [] else [corpus.value.docCol] + corpus.value.metas
    }

    /** Moves the cursor to the requested index pulled into the index bounds;
        an index already in bounds is taken as it is. */
    method SetCurrDocumentIdx(newDocumentIdx: int)
      requires Valid()
      modifies this
      ensures Valid()
      ensures currDocumentIdx == Clamp(newDocumentIdx, GetMinDocumentIdx(), GetMaxDocumentIdx())
      ensures GetMinDocumentIdx() <= newDocumentIdx <= GetMaxDocumentIdx() ==> currDocumentIdx == newDocumentIdx
      ensures corpus.None? ==> currDocumentIdx == MinDocumentIdx
      ensures displayUpdates == old(displayUpdates) + 1
      ensures corpus == old(corpus) && annotations == old(annotations)
      ensures categories == old(categories) && defaultCategory == old(defaultCategory)
    {
      var idx := if newDocumentIdx < GetMaxDocumentIdx() then newDocumentIdx else GetMaxDocumentIdx();
      idx := if idx > GetMinDocumentIdx() then idx else GetMinDocumentIdx();
      currDocumentIdx := idx;
      UpdateDisplays();
    }

    /** One document forward; at the last document the cursor stays. */
    method NextDocument()
      requires Valid()
      modifies this
      ensures Valid()
      ensures old(currDocumentIdx) < GetMaxDocumentIdx() ==> currDocumentIdx == old(currDocumentIdx) + 1
      ensures old(currDocumentIdx) == GetMaxDocumentIdx() ==> currDocumentIdx == old(currDocumentIdx)
      ensures displayUpdates == old(displayUpdates) + 1
      ensures corpus == old(corpus) && annotations == old(annotations)
      ensures categories == old(categories) && defaultCategory == old(defaultCategory)
    {
      SetCurrDocumentIdx(currDocumentIdx + 1);
    }

    /** One document back; at the first document the cursor stays. */
    method PrevDocument()
      requires Valid()
      modifies this
      ensures Valid()
      ensures old(currDocumentIdx) > GetMinDocumentIdx() ==> currDocumentIdx == old(currDocumentIdx) - 1
      ensures old(currDocumentIdx) == GetMinDocumentIdx() ==> currDocumentIdx == old(currDocumentIdx)
      ensures displayUpdates == old(displayUpdates) + 1
      ensures corpus == old(corpus) && annotations == old(annotations)
      ensures categories == old(categories) && defaultCategory == old(defaultCategory)
    {
      SetCurrDocumentIdx(currDocumentIdx - 1);
    }

    /** Appends a new category; a name already present (checked first) or an
        empty name is refused with a warning and the registry is unchanged. */
    method AddCategory(category: string) returns (outcome: AddOutcome)
      requires Valid()
      modifies this
      ensures Valid()
      ensures category in old(categories) ==> outcome == AlreadyAddedWarning && categories == old(categories)
      ensures category !in old(categories) && category == "" ==> outcome == EmptyCategoryWarning && categories == old(categories)
      ensures category !in old(categories) && category != "" ==> outcome == Added && categories == old(categories) + [category]
      ensures corpus == old(corpus) && annotations == old(annotations) && currDocumentIdx == old(currDocumentIdx)
      ensures defaultCategory == old(defaultCategory) && displayUpdates == old(displayUpdates)
    {
      if category in categories {
        return AlreadyAddedWarning;
      }
      if |category| == 0 {
        return EmptyCategoryWarning;
      }
      AppendKeepsWellFormed(categories, category);
      categories := categories + [category];
      outcome := Added;
    }

    /** Removes a category if it is present; other names keep their order and
        no stored annotation is touched. */
    method RemoveCategory(category: string)
      requires Valid()
      modifies this
      ensures Valid()
      ensures category !in old(categories) ==> categories == old(categories)
      ensures category in old(categories) ==>
        var k := IndexOf(old(categories), category);
        categories == old(categories)[..k] + old(categories)[k + 1..]
      ensures category !in categories
      ensures forall y :: y != category ==> (y in categories <==> y in old(categories))
      ensures corpus == old(corpus) && annotations == old(annotations) && currDocumentIdx == old(currDocumentIdx)
      ensures defaultCategory == old(defaultCategory) && displayUpdates == old(displayUpdates)
    {
      RemoveKeepsWellFormed(categories, category);
      if category in categories {
        categories := RemoveFirst(categories, category);
      }
    }

    /** Stores an explicit label list for the current document; without a
        corpus nothing happens. Every other document keeps its category. */
    method SetCurrCategory(labels: seq<string>)
      requires Valid()
      modifies this
      ensures Valid()
      ensures corpus == old(corpus) && currDocumentIdx == old(currDocumentIdx) && categories == old(categories)
      ensures old(annotations).None? ==> unchanged(this)
      ensures old(annotations).Some? ==>
        annotations == Some(old(annotations).value[currDocumentIdx - 1 := Explicit(labels)])
      ensures old(annotations).Some? ==> GetCurrCategory() == Ok(Labels(labels))
      ensures forall i :: i != currDocumentIdx ==> GetDocumentCategory(i) == old(GetDocumentCategory(i))
      ensures defaultCategory == old(defaultCategory) && displayUpdates == old(displayUpdates)
    {
      if annotations.None? {
        return;
      }
      annotations := Some(annotations.value[currDocumentIdx - 1 := Explicit(labels)]);
    }

    /** Sets the default category: every document still at the sentinel now
        shows it, every explicitly set document keeps its labels. */
    method SetDefaultCategory(category: string)
      requires Valid()
      modifies this
      ensures Valid()
      ensures defaultCategory == Some(category)
      ensures forall i :: 1 <= i <= GetMaxDocumentIdx() && annotations.Some? && annotations.value[i - 1] == DefaultMarker ==>
        GetDocumentCategory(i) == Ok(Text(category))
      ensures forall i :: !(annotations.Some? && 1 <= i <= |annotations.value| && annotations.value[i - 1] == DefaultMarker) ==>
        GetDocumentCategory(i) == old(GetDocumentCategory(i))
      ensures corpus == old(corpus) && annotations == old(annotations) && currDocumentIdx == old(currDocumentIdx)
      ensures categories == old(categories) && displayUpdates == old(displayUpdates)
    {
      defaultCategory := Some(category);
    }

    /** Saving: without a corpus, a warning and nothing else. Otherwise the new
        corpus gets one cell per document, in index order, holding the text of
        what that document shows (the sentinel resolved through the default,
        `''` when the default is unset or empty); the column name avoids every
        metadata name of the selected corpus, but not the document column,
        which is not part of the collision set: a request for the document
        column's name is granted as it is. The fill from the overwritten
        column is discarded, so overwriting only drops that column. */
    method SaveAsCorpus(newName: string, selectedMeta: string, overwriteMeta: bool) returns (outcome: SaveOutcome)
      requires Valid()
      ensures outcome.NoCorpusWarning? <==> corpus.None?
      ensures outcome.Saved? ==>
        var s := outcome.saved;
        s.source == corpus.value &&
        s.name == (if newName == "" then None else Some(newName)) &&
        s.removedMeta == (if overwriteMeta then Some(selectedMeta) else None) &&
        s.columnName == NewColumnName(selectedMeta, set m | m in corpus.value.metas) &&
        s.columnName !in corpus.value.metas &&
        s.columnName !in GetAllMetas()[1..] &&
        (BaseName(selectedMeta) == GetAllMetas()[0] && GetAllMetas()[0] !in GetAllMetas()[1..] ==>
          s.columnName == GetAllMetas()[0]) &&
        s.column == ExportColumn(annotations.value, DefaultCategoriesString(defaultCategory)) &&
        |s.column| == corpus.value.size &&
        forall i :: 0 <= i < corpus.value.size ==> s.column[i] == CellText(GetDocumentCategory(i + 1).value)
    {
      if corpus.None? {
        return NoCorpusWarning;
      }
      var name: Option<string> := if |newName| == 0 then None else Some(newName);
      var defaultCategoriesStr := DefaultCategoriesString(GetDefaultCategory());
      var annotationsCol := ExportColumn(annotations.value, defaultCategoriesStr);
      var removed: Option<string> := None;
      if overwriteMeta {
        removed := Some(selectedMeta);
      }
      var existing := set m | m in corpus.value.metas;
      var columnName := GetNewColumnName(selectedMeta, existing);
      outcome := Saved(SavedCorpus(corpus.value, name, removed, columnName, annotationsCol));
    }
  }

  /** A session on three documents: document 2 labelled `pos`, the others
      left at the sentinel, then saved under the default column name. */
  method ExampleSession()
  {
    var a := new Annotator();
    var c := Corpus(7, "document", ["author"], 3);
    a.SetSelectedCorpus(Some(c));
    var added := a.AddCategory("pos");
    assert added == Added;
    added := a.AddCategory("pos");
    assert added == AlreadyAddedWarning && a.categories == ["pos"];
    a.NextDocument();
    assert a.currDocumentIdx == 2;
    a.SetCurrCategory(["pos"]);
    a.SetDefaultCategory("neg");
    assert a.GetDocumentCategory(1) == Ok(Text("neg"));
    assert a.GetDocumentCategory(2) == Ok(Labels(["pos"]));
    a.SetDefaultCategory("");
    var outcome := a.SaveAsCorpus("", "", false);
    assert outcome.saved.column[0] == "" && outcome.saved.column[2] == "";
    assert outcome.saved.column[1] == "pos";
    assert outcome.saved.columnName == "annotation";
    a.SetSelectedCorpus(Some(c));
    assert a.currDocumentIdx == 2;
  }
}
