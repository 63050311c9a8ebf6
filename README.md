# Legal Intelligence dataset tools, modelled in Dafny

This project models the dataset-building and dataset-transforming core of
`legalintelligence/tools.py` and proves properties of the model.

A *dataset* holds six parallel lists:

- `files`: the source path of each record.
- `data`: the extracted text of each record.
- `target1`: an index into `target1_names` (the first-level subject) for each record.
- `target2`: an index into `target2_names` (the second-level subject) for each record, or absent.
- `target1_names` and `target2_names`: the two name tables.

It is built by `LegalIntelligenceExtractor.handle_xml_file`, one XML document
at a time. It is then filtered, chopped, grouped and shuffled by the
module-level functions.

Modules, one file each:

- `wrappers.dfy` (`Wrappers`): `Option`, `Result` and the error value.
- `seqs.dfy` (`Seqs`): sequence helpers.
  - Distinctness, ascending order, `IndexOf` (first occurrence, as Python's `list.index`) and `Select`.
  - `Count`, the occurrences of a value in a prefix.
  - The multiset of a selection.
- `datasets.dfy` (`Datasets`): the dataset value.
  - `WellFormed`: equal lengths and labels in range.
  - `NoOrphans`: every name is used.
  - `Valid`: the whole invariant, which adds distinct names.
- `subjects.dfy` (`Subjects`): the subject split of `extract_subjects`.
  - `Collapse` is a left-to-right scanner for `re.sub(r"\s*;\s*", ";", text)`.
  - It is proved equal to an independent reference: split on `;`, then remove the whitespace next to each separator.
- `ingestion.dfy` (`Ingestion`): the class `LegalIntelligenceExtractor`.
  - Its method `HandleXmlFile` updates the `data` field in place.
  - It is proved against the specification function `Ingested`.
- `compaction.dfy` (`Compaction`): `cleanup_target_names`.
- `removal.dfy` (`Removal`): `remove_indices`.
- `groups.dfy` (`Groups`): the grouping loop shared by the two group filters.
  - The method `Support` builds the groups.
  - `Group`, `Rank` and `GroupSize` specify it.
- `filters.dfy` (`Filters`): `filter_incomplete_subjects` (a function).
  - Also `filter_small_subjects` and `chop_large_subjects`, as methods.
  - Their loops over the groups are the methods `SmallSubjectIndices` and `ChopSubjectIndices`. Each collects the positions to drop and is proved against a specification function (`SmallIndices`, `ChopIndices`).
  - The two filters then call `remove_indices` on the collected positions, as the source does.
- `grouping.dfy` (`Grouping`): `get_indices`, as a method with a loop.
- `shuffling.dfy` (`Shuffling`): `shuffle_dataset`, as a method with a loop.

How the model follows the code:

- **An absent second-level label makes removal fail.**
  - `remove_indices` passes the kept `target2` list to `cleanup_target_names`.
  - That function evaluates `list(target_names)[None]` for an absent label, which raises `TypeError` (tools.py:206).
  - So `RemoveIndices` returns `Err(AbsentLabelIndexed)` exactly when some kept record has no second-level label.
  - An absent label therefore never passes through compaction: the code raises while building the new name table, so no compacted result exists.
  - `filter_small_subjects` and `chop_large_subjects` inherit this, and the lemmas state when it happens.
  - `filter_incomplete_subjects` removes those records first and is proved never to fail.
  - `get_indices` raises in the same way (tools.py:309), and `GetIndices` returns `Err` exactly when some label is absent.
- **Set and dictionary order is fixed.**
  - `list(set(...))` at tools.py:175 and tools.py:205 leaves the order to the set implementation. The model fixes it to ascending: `Kept` and `UsedIndices`.
  - Dictionary iteration in the group filters follows insertion order. It is modelled by the key list `order` that `Support` returns beside the map.
- **The algebra of the subject split.**
  - `re.sub` matches leftmost first. A match starts where a run of whitespace, possibly empty, is followed by `;`, and it takes the whitespace after the `;`.
  - Python's `\s` for `str` patterns is the set of characters `str.isspace` accepts. `IsSpace` lists them by code point.

## Model

| member | source | states |
|---|---|---|
| Subjects.Split | legalintelligence/tools.py:115 | `str.split(";")` gives at least one field and no field contains `;` |
| Subjects.Collapse | legalintelligence/tools.py:114 | the left-to-right scanner for `re.sub(r"\s*;\s*", ";", text)`; what it computes is stated by `CollapseWithoutSemicolon`, `CollapseAt` and `SplitCollapse` below |
| Subjects.CollapseWithoutSemicolon | legalintelligence/tools.py:114 | the substitution leaves a text without `;` unchanged |
| Subjects.CollapseAt | legalintelligence/tools.py:114 | on a text whose first `;` is at `i`, the substitution keeps the characters before `i` except trailing whitespace, writes one `;`, and continues after the whitespace that follows it |
| Subjects.SplitCollapse | legalintelligence/tools.py:114-115 | substitution then split gives exactly the fields of the text, the end of each field but the last and the start of each field but the first stripped of whitespace |
| Subjects.JoinSplit | legalintelligence/tools.py:115 | joining the split fields with `;` gives back the text |
| Subjects.SplitJoin | legalintelligence/tools.py:115 | splitting a join of `;`-free fields gives back the fields |
| Subjects.ExtractSubjects | legalintelligence/tools.py:94-116 | the subjects are the tidied fields of every subject text, concatenated in document order (`SubjectsOf`), none containing `;` |
| Subjects.TwoSubjects | legalintelligence/tools.py:114-115 | two `;`-free subjects joined by `;` with any whitespace around it (such as `"Civil Law ; Contracts"`) give exactly those two subjects |
| Ingestion.LegalIntelligenceExtractor.constructor | legalintelligence/tools.py:54-56 | a new extractor holds the empty dataset, which satisfies the dataset invariant |
| Ingestion.LegalIntelligenceExtractor.HandleXmlFile | legalintelligence/tools.py:58-91 | the new dataset is `Ingested(old dataset, path, content)`: unchanged for a parse error or a subject count other than 1 or 2, otherwise with one record added; the dataset invariant is preserved |
| Ingestion.IngestedAccepts | legalintelligence/tools.py:72-91 | exactly one record is added if and only if the document parses and has one or two subjects; otherwise nothing changes |
| Ingestion.WithName | legalintelligence/tools.py:80-86 | `if name not in names: names.append(name)`: the result holds the name; `WithNameGrows` gives the rest |
| Ingestion.AddRecord | legalintelligence/tools.py:76-89 | the accepting branch of `handle_xml_file`: one more record; `AddRecordAppends` and `AddRecordValid` state what that record is and that the invariant holds |
| Ingestion.AddRecordAppends | legalintelligence/tools.py:76-89 | the one new record has the path, the text, the first subject as first-level name and the second subject or absent as second-level name; earlier records keep their tuples and names; each table is the old one with the subject appended if it was missing |
| Ingestion.WithNameGrows | legalintelligence/tools.py:80-81 | a name table only grows, by at most the one name, stays duplicate-free, and is unchanged exactly when the name was already there |
| Ingestion.AddRecordValid | legalintelligence/tools.py:76-89 | accepting a document keeps the names distinct and every name used |
| Ingestion.TwoSubjectDocument | legalintelligence/tools.py:72-89 | a document whose one subject text holds two subjects around a `;` adds one record with the first as first-level name and the second as second-level name |
| Ingestion.OneSubjectDocument | legalintelligence/tools.py:72-89 | a document whose one subject text has no `;` adds one record with that text as first-level name and no second-level name |
| Compaction.UsedIndices | legalintelligence/tools.py:205 | the distinct labels that occur, ascending, each below the table size |
| Compaction.CleanupTargetNames | legalintelligence/tools.py:186-208 | same number of targets; every record keeps its label name; as many names as distinct old labels; no orphaned name; two records share a new label exactly when they shared the old one |
| Compaction.CleanupKeepsOrder | legalintelligence/tools.py:205-207 | the renumbering keeps the order of label indices |
| Compaction.CleanupKeepsDistinct | legalintelligence/tools.py:205-206 | a duplicate-free name table stays duplicate-free |
| Compaction.CleanupWithoutOrphans | legalintelligence/tools.py:205-208 | with every name used, compaction returns targets and names unchanged |
| Removal.Kept | legalintelligence/tools.py:174-175 | the kept positions are exactly the in-range positions not listed |
| Removal.KeptIncreasing | legalintelligence/tools.py:175 | the kept positions are in ascending order |
| Removal.KeptByMembership | legalintelligence/tools.py:175 | only which in-range positions are listed matters, not order, repetition or out-of-range entries |
| Removal.RemoveByMembership | legalintelligence/tools.py:158-183 | two removal lists that agree on which in-range positions they hold give the same result |
| Removal.Retained | legalintelligence/tools.py:177-182 | the records at the kept positions with both name tables compacted; `RetainedFacts` states its meaning |
| Removal.RetainedFacts | legalintelligence/tools.py:177-182 | record `k` of the result is kept record `keep[k]` with the same file, text and label names; no name is orphaned; two records share a label exactly when their originals did |
| Removal.Retain | legalintelligence/tools.py:176-182 | fails exactly when a kept record has no second-level label; on success record `k` is kept record `keep[k]` with the same file, text and label names, no name is orphaned, and the grouping by label is unchanged |
| Removal.RemoveIndices | legalintelligence/tools.py:158-183 | fails exactly when an in-range record not listed has no second-level label; otherwise keeps exactly those records, in order, with their file, text and label names, no orphaned name, same grouping |
| Removal.RemoveIndicesKeepsValid | legalintelligence/tools.py:158-183 | a successful removal keeps the whole dataset invariant |
| Removal.RemoveNothing | legalintelligence/tools.py:158-183 | removing nothing from a valid dataset with every second-level label present returns it unchanged |
| Filters.AbsentIndices | legalintelligence/tools.py:225 | lists exactly the positions with an absent second-level label |
| Filters.FilterIncompleteSubjects | legalintelligence/tools.py:211-226 | never fails; keeps exactly the records with a second-level label, with their file, text and names; none of the result's labels is absent; no name is orphaned |
| Groups.GroupFacts | legalintelligence/tools.py:245-250 | the group of a label is the ascending list of all positions carrying it, of length its count |
| Groups.GroupPosition | legalintelligence/tools.py:249-250 | a record sits in its group's list at the position given by the number of earlier group members |
| Groups.GroupedStep | legalintelligence/tools.py:246-250 | handling one more record appends its position to its label's list, creating the list and listing the label when the label is new, and keeps every list equal to its group |
| Groups.Support | legalintelligence/tools.py:245-250 | one list per label that occurs, the absent label included, each equal to that label's group; the key order lists every key once |
| Groups.ChoppedMembers | legalintelligence/tools.py:283 | the slice of a group's list from `start` holds exactly the members preceded by `start` or more members |
| Filters.SmallIndices | legalintelligence/tools.py:251-254 | lists exactly the positions whose group has fewer than `min_support` members |
| Filters.SmallGroupMembers | legalintelligence/tools.py:252-253 | the list one group contributes holds all of its members when it has fewer than `min_support` of them, and none otherwise |
| Filters.SmallDroppedMembers | legalintelligence/tools.py:251-253 | once the collecting loop has handled a list of labels, it holds exactly the members of the small groups among them |
| Filters.SmallSubjectIndices | legalintelligence/tools.py:245-254 | the collected positions are exactly the records whose group has fewer than `min_support` members |
| Filters.FilterSmallSubjects | legalintelligence/tools.py:229-255 | the result is `remove_indices` of exactly the members of small groups |
| Filters.FilterSmallSubjectsKeeps | legalintelligence/tools.py:245-255 | keeps exactly the records whose group has at least `min_support` members; fails exactly when absent labels occur and are not fewer than `min_support` |
| Filters.ResultGroupSize | legalintelligence/tools.py:174-182 | after a successful removal, a kept record's group is as large as the number of records of its old group that were not removed |
| Filters.FilterSmallSubjectsGroups | legalintelligence/tools.py:229-255 | every group of the result is as large as it was, hence has at least `min_support` members |
| Filters.ChopIndicesMembers | legalintelligence/tools.py:280-283 | `ChopIndices` lists exactly the members of groups larger than `max_documents` from slice position `max_documents` on |
| Filters.ChoppedGroupMembers | legalintelligence/tools.py:282-283 | the slice one group contributes holds exactly its members that are dropped |
| Filters.ChoppedDroppedMembers | legalintelligence/tools.py:280-283 | once the collecting loop has handled a list of labels, it holds exactly the dropped members of the groups among them |
| Filters.ChoppedRank | legalintelligence/tools.py:282-283 | a record is dropped exactly when its group has `Quota` members before it (`Quota` is what a group keeps: `min(size, m)` for a cap of zero or more, `max(size + m, 0)` for a negative one): for a cap of zero or more, when at least `m` members of its group precede it; for a negative cap, when it is among the last `-m` members of its group |
| Filters.ChopSubjectIndices | legalintelligence/tools.py:274-283 | the collected positions are exactly the dropped records |
| Filters.ChopLargeSubjects | legalintelligence/tools.py:258-284 | the result is `remove_indices` of exactly those chopped members |
| Filters.ChopLargeSubjectsKeeps | legalintelligence/tools.py:274-284 | for any cap, keeps exactly the records preceded by fewer than `Quota` members of their group, so all of a group of at most `max_documents` |
| Filters.ChopLargeSubjectsFails | legalintelligence/tools.py:274-284 | fails exactly when the group of absent labels keeps a member: for a cap of zero or more, when an absent label occurs and the cap is positive |
| Filters.ChopLargeSubjectsGroups | legalintelligence/tools.py:258-284 | every group of the result has `Quota` members: `min(size, max_documents)`, so at most `max_documents`, for a cap of zero or more; all but the last `-max_documents` for a negative cap |
| Grouping.Insert | legalintelligence/tools.py:306-312 | appends a record under a pair of names, creating the inner map and the list when missing; `InsertComplete`, `InsertSound` and `InsertOrdered` show that one step keeps every record listed under its own names only, in ascending lists |
| Grouping.GetIndices | legalintelligence/tools.py:287-313 | fails exactly when a second-level label is absent; otherwise every record is listed under its own pair of names and nowhere else, every list is ascending and not empty, and every first-level name holds at least one second-level name, so the first-level keys are exactly the first-level names in use |
| Shuffling.PermutationFacts | legalintelligence/tools.py:334-335 | a rearrangement of `0 .. n - 1` has length `n`, lists only positions below `n` and lists each of them |
| Shuffling.ShuffleDataset | legalintelligence/tools.py:316-344 | record `k` of the result is record `perm[k]` of the input; the name tables are the input's; the multiset of record tuples is unchanged; the dataset invariant is preserved |

## Left out

- Zip-archive reading and UTF-8 decoding are not modelled. They are I/O.
- Storing a dataset with `pickle` and loading it back (`store_dataset`, `load_dataset`) are not modelled. They are I/O.
- The `Bunch` attribute mechanics are not modelled. A dataset is a plain datatype.
- XML parsing and `extract_text_from_xml` are not modelled. `textmining/extract.py` is not part of this model.
  - `HandleXmlFile` receives the parse result as `Xml`: either `Malformed` or the document's extracted text and its subject texts in document order.
  - The `separator` field only parametrises that text extraction, so the class leaves it out.
- The element search `findall(".//dcterms:subject")` is left out. `ExtractSubjects` receives the texts it finds.
- `ExtractSubjects`: a subject element with no text (`None`) makes the source raise `TypeError`, which `handle_xml_file` does not catch. That case is not modelled: subject texts are strings.
- `ShuffleDataset`: the random permutation (`random.seed`, `shuffle`) is an input, `perm`, required to be a rearrangement of `0 .. n - 1`. Seeded reproducibility is therefore outside the model.
- `ShuffleDataset`: the source makes the result share the input's name-table lists (aliasing). The model copies the values, so later in-place changes through one alias are not modelled.
- The order of `list(set(...))` is fixed to ascending (see above). The source leaves it to the set implementation.
- `CleanupTargetNames` requires every label to be a position in its name table. `RemoveIndices`, the three filters, `GetIndices` and `ShuffleDataset` require `WellFormed`: equal list lengths and labels that index their tables. What the source does with inputs violating this (an `IndexError` or silently wrong results) is not modelled. Ingestion (`HandleXmlFile`, `Ingested`, `AddRecord`, `ExtractSubjects`) requires nothing of the dataset; only the lemmas that describe the new record (`AddRecordAppends`, `TwoSubjectDocument`, `OneSubjectDocument`) assume `WellFormed`.
- Character classes follow Python's `str.isspace` as listed in `IsSpace`. There is no Unicode normalisation or case folding, and the source performs none.
