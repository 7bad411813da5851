# Annotation session of the ATAP annotator, in Dafny

This project models the session state of the `Annotator` class of the ATAP
annotator, the object behind the document-annotation screen. A user selects
a corpus, steps through its documents, keeps a registry of category names and
a default category, labels documents, and saves the result as a new corpus
with an extra annotation column.

The model keeps the source's form:

- `AnnotatorState.Annotator` is a class with the mutable fields of the Python
  object: selected corpus, annotation series, cursor, category list, default
  category, and a counter of view refreshes. Each mutator is a method with a
  `modifies` clause. It keeps the session invariant `Valid()`:
  - annotations exist exactly while a corpus is selected, one per document;
  - the cursor lies in `[1, n]`;
  - category names are unique and non-empty.
  Each mutator's `ensures` state the whole new state. `SetSelectedCorpus`,
  `SetCurrCategory` and `SetDefaultCategory` also state what the change means
  for `GetDocumentCategory`.
- The readers are functions over the object. `GetDefaultCategory` models
  `get_default_category`. It returns the field that `SetDefaultCategory` sets,
  and both the lookup and the save read the default through it.
- `ColumnNames.GetNewColumnName` keeps the source's `while` loop. It is proved
  against the function `NewColumnName`. Lemmas show that function returns the
  first free name among `base`, `base_0`, `base_0_1`, ….
- The save helpers are pure functions: `Annotations.ResolveCategories`,
  `Annotations.DefaultCategoriesString` and `Annotations.ExportColumn`.
- `Strings.Split` and the lemma `Strings.JoinSplit` are not operations of the
  annotator, which never splits a string. They are a reference inverse for
  `','.join`. With `Strings.SplitJoin` they show which label lists a saved
  cell determines.

An annotation is `DefaultMarker` or `Explicit(labels)`. `DefaultMarker` is the
source's `DefaultCategoryMarker`, and reading it gives whatever the default is
at that moment. `Explicit(labels)` holds a label list fixed when it was set.
The labels are a `seq<string>`, matching the `list[str]` typing of
`_resolve_categories`. `set_curr_category` is annotated as taking a `str`;
joining a `str` with `','.join` would put a comma between its characters. The
model's `SetCurrCategory` takes a label list.

Where the code does something its names do not suggest, the model follows the
code:

- Suffixes accumulate. With `cat` and `cat_0` already taken, `cat` becomes
  `cat_0_1`, not `cat_1`. The rename builds each candidate from the one before
  (`ColumnNames.CumulativeSuffixes`).
- When overwriting, the result of filling the new column from the old one is
  thrown away. Overwriting therefore only removes the old column.
- Name collisions are checked against the metadata of the selected corpus,
  not of the clone the overwritten column was removed from. So an overwritten
  column's name is never reused:
  the new column gets a suffixed name (see `SaveAsCorpus`).
- The document column is not part of that collision set. A request for the
  document column's name is granted unchanged, as long as no metadata column
  has that name.

## Model

| member | source | states |
|---|---|---|
| `Strings.NatToString` | atap_annotator/annotator/Annotator.py:105 | the iteration number in the f-string is rendered as a non-empty string of decimal digits, with no leading zero (`0` alone for zero) |
| `Strings.NatToStringRoundTrip` | atap_annotator/annotator/Annotator.py:105 | reading the rendered digits back as a decimal number gives the iteration number |
| `Strings.SplitJoin` | atap_annotator/annotator/Annotator.py:113 | splitting `','.join(parts)` on commas gives `parts` back when the list is non-empty and no part contains a comma |
| `Strings.JoinSplit` | atap_annotator/annotator/Annotator.py:113 | joining the comma-split pieces of any string gives that string back |
| `CategoryList.AppendKeepsWellFormed` | atap_annotator/annotator/Annotator.py:155-162 | appending a name that is absent and non-empty keeps the registry's names unique and non-empty |
| `CategoryList.RemoveFirstShifts` | atap_annotator/annotator/Annotator.py:166-167 | `list.remove` deletes exactly the first occurrence: length drops by one, earlier names stay, later names move one place forward, and one copy of the name leaves the multiset |
| `CategoryList.RemoveKeepsWellFormed` | atap_annotator/annotator/Annotator.py:165-168 | removing from a well-formed registry keeps it well formed, removes the name completely and keeps every other name |
| `Navigation.Clamp` | atap_annotator/annotator/Annotator.py:203-205 | `max(min(k, hi), lo)` lies in `[lo, hi]` when `lo <= hi`, is `k` when `k` is in range, `lo` below it and `hi` above it |
| `ColumnNames.SuffixedShrinks` | atap_annotator/annotator/Annotator.py:104-105 | each renaming step strictly shrinks the set of existing names at least as long as the candidate, so the loop terminates |
| `ColumnNames.Probe` | atap_annotator/annotator/Annotator.py:104-106 | the loop, started from any name and counter, ends on a name not among the existing columns |
| `ColumnNames.BaseName` | atap_annotator/annotator/Annotator.py:102-103 | an empty provided name is replaced by `annotation`, so the starting name is never empty |
| `ColumnNames.GetNewColumnName` | atap_annotator/annotator/Annotator.py:100-108 | the loop terminates and returns `NewColumnName(provided, existing)`, a name not among the existing columns |
| `ColumnNames.ProbeFromCandidate` | atap_annotator/annotator/Annotator.py:104-106 | from the k-th candidate the loop ends on the first later candidate that is free, and every candidate it passes is taken |
| `ColumnNames.NewColumnNameIsFirstFree` | atap_annotator/annotator/Annotator.py:100-108 | the result is the first free name among the base name and its cumulatively suffixed candidates, and every earlier candidate collides |
| `ColumnNames.FreeNameKept` | atap_annotator/annotator/Annotator.py:104-108 | a base name that does not collide is returned unchanged |
| `ColumnNames.CandidateExtends` | atap_annotator/annotator/Annotator.py:105 | every suffixed candidate starts with the base name followed by `_0` |
| `ColumnNames.CollidingNameSuffixed` | atap_annotator/annotator/Annotator.py:102-106 | a colliding base name is returned with at least one suffix, the first of which is `_0` |
| `ColumnNames.CumulativeSuffixes` | atap_annotator/annotator/Annotator.py:105 | with `cat` and `cat_0` taken, `cat` becomes `cat_0_1` |
| `Annotations.DefaultCategoriesString` | atap_annotator/annotator/Annotator.py:125 | the default string is `''` without a default and the default itself otherwise (an empty default stays `''`) |
| `Annotations.ExportColumn` | atap_annotator/annotator/Annotator.py:126 | the exported column has exactly one entry per annotation, in index order, each the annotation resolved through the default string |
| `Annotations.ResolveCategories` | atap_annotator/annotator/Annotator.py:110-115 | the sentinel resolves to the default string; an explicit list to its comma join, so an empty list gives `''`, a single label itself, and a non-empty list of comma-free labels is recovered from the result by splitting on commas |
| `AnnotatorState.Annotator.constructor` | atap_annotator/annotator/Annotator.py:35-44 | a new session has no corpus and no annotations, cursor 1, no categories and no default, and satisfies the session invariant |
| `AnnotatorState.Annotator.UpdateDisplays` | atap_annotator/annotator/Annotator.py:75-78 | a refresh of the views is counted once |
| `AnnotatorState.Annotator.SetSelectedCorpus` | atap_annotator/annotator/Annotator.py:83-98 | selecting the current corpus changes nothing, not even the refresh count; selecting `None` clears corpus and annotations, and every document then shows `''`; selecting another corpus makes all `n` annotations the sentinel, so every document shows the live default; both of those reset the cursor to 1 and refresh once, and the registry and default are untouched |
| `AnnotatorState.Annotator.GetCurrDocumentIdx` | atap_annotator/annotator/Annotator.py:172-173 | the cursor always lies between the minimum and maximum document index |
| `AnnotatorState.Annotator.GetMinDocumentIdx` | atap_annotator/annotator/Annotator.py:175-178 | the minimum index is 1, with or without a corpus, and does not exceed the document count |
| `AnnotatorState.Annotator.GetMaxDocumentIdx` | atap_annotator/annotator/Annotator.py:180-183 | the maximum index is 1 without a corpus and the corpus's document count with one |
| `AnnotatorState.Annotator.GetAllCategories` | atap_annotator/annotator/Annotator.py:185-186 | the registry's names are returned, unique and non-empty |
| `AnnotatorState.Annotator.GetDocumentCategory` | atap_annotator/annotator/Annotator.py:191-198 | `''` without a corpus; a `KeyError` exactly for an index outside `1..n`; the current default (`None` if unset) for a sentinel entry; the stored labels for an explicit entry |
| `AnnotatorState.Annotator.GetCurrCategory` | atap_annotator/annotator/Annotator.py:200-201 | the current document's category is always found, never a `KeyError` |
| `AnnotatorState.Annotator.GetAllMetas` | atap_annotator/annotator/Annotator.py:143-146 | empty exactly without a corpus; otherwise the document column followed by the corpus's metadata names; `SaveAsCorpus` relies on this split, since its new column avoids every name after the first but not the first |
| `AnnotatorState.Annotator.SetCurrDocumentIdx` | atap_annotator/annotator/Annotator.py:203-209 | the cursor becomes the requested index clamped to the bounds, an in-range index exactly, 1 without a corpus; one refresh; nothing else changes |
| `AnnotatorState.Annotator.NextDocument` | atap_annotator/annotator/Annotator.py:211-212 | the cursor moves one forward, or stays at the last document |
| `AnnotatorState.Annotator.PrevDocument` | atap_annotator/annotator/Annotator.py:214-215 | the cursor moves one back, or stays at the first document |
| `AnnotatorState.Annotator.AddCategory` | atap_annotator/annotator/Annotator.py:155-163 | a present name is refused first, then an empty name, each with its warning and the registry unchanged; otherwise the name is appended at the end |
| `AnnotatorState.Annotator.RemoveCategory` | atap_annotator/annotator/Annotator.py:165-168 | an absent name changes nothing; a present one is deleted with the other names in order; no annotation, cursor or default changes |
| `AnnotatorState.Annotator.SetCurrCategory` | atap_annotator/annotator/Annotator.py:217-221 | without a corpus nothing changes; otherwise only the current document's entry becomes the explicit labels, and every other document's category is the same as before |
| `AnnotatorState.Annotator.SetDefaultCategory` | atap_annotator/annotator/Annotator.py:223-225 | every document still at the sentinel now shows the new default; every other document's category is the same as before |
| `AnnotatorState.Annotator.SaveAsCorpus` | atap_annotator/annotator/Annotator.py:117-139 | without a corpus, only the warning; otherwise a clone named by `new_name` (empty: generated name); the selected column is dropped only when overwriting; the column name avoids the corpus's metadata names but not the document column, whose name is granted when requested and no metadata column has it; the column has one cell per document in index order, holding the comma-joined text of what that document shows |

## Left out

- Panel widgets and layout (`SettingsControls`, `Navigator`, `CategoryControls`, `MetaDisplay`, `DocumentDisplay`, `__panel__`): view wiring only. A refresh of the views is counted in `displayUpdates`, nothing more.
- `CorpusAnnotator.py`: logging, file handlers and loader construction (I/O).
- `log`, `display_error`, `display_warning`, `display_success`: notifications become the outcome values `AddOutcome` and `SaveOutcome`. Their texts and durations are not modelled.
- The corpus loader passed to the constructor, `get_corpus_dict` and the `"update"` callback registration: these call into the external loader.
- `corpus_df` and `get_curr_meta_str`: these read DataFrame cells of the external corpus.
- External corpus and pandas calls (`to_dataframe`, `cloned`, `remove_meta`, `add_meta`, `astype('category')`, `get_mutable_corpora().add`, `trigger_event`): library behaviour that `Corpus` does not capture. Their effect is described by the returned `SavedCorpus`. The refresh that the `"update"` event triggers through the loader's callback is not counted.
- SaveAsCorpus: does not model the categorical retyping, or what the corpus library does when an overwritten `selected_meta` is not one of its columns.
- The `fillna` fill when overwriting: its result is discarded in the source, so the model has nothing for it.
- A corpus with no documents: the minimum of an empty pandas index is not an integer, so selecting a corpus requires at least one document.
- Corpus equality in the re-entrancy guard is modelled as equality of the `Corpus` token.
- Resuming annotation from a saved column, and the methods the widgets call but `Annotator.py` does not define (`get_curr_categories`, `set_curr_categories`, `get_default_categories`, `set_default_categories`, `get_categorical_metas`, `set_annotated_meta_col`): there is no source for them.
