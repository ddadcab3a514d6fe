# brainiac5 table-of-contents engine — a Dafny model

brainiac5 stores ideas (short texts with embeddings) and arranges them into a
table of contents. This project models that arrangement and proves properties
of it. It also models the tag handling of the two idea handlers.

- **`TocPartition`** (`toc_partition.dfy`) models `DataSimilarity._generate_toc_structure`.
  - Small inputs, or a level past the maximum depth, become one leaf per document.
  - Any other level asks the clustering for `max(2, int(sqrt(n)))` clusters.
  - It then emits one heading per distinct label, in ascending label order.
  - Each heading's children are the same partition applied one level deeper to that label's documents.
  - Clustering, `unformat_text` and the TF-IDF ranking are parameters (`Collaborators`).
- **`SectionTitle`** (`section_title.dfy`) models `generate_synthetic_title`.
  - The greedy, word-disjoint choice of at most two ranked terms.
  - The `" & "` join of the capitalised terms.
  - The three fallbacks.
  - The loop is modelled as written (`SelectTerms`), with a `break` and an `is_redundant` flag.
- **`Originality`** (`originality.dfy`) models the originality scores.
  - Min-max scaling of the negated outlier factors.
  - The mean score of a cluster.
  - The percentage string `str(int(x * 100)) + "%"`.
- **`TocCache`** (`toc_cache.dfy`) models `save_toc_structure` / `load_toc_structure` as a class over the state of the cache file.
- **`IdeaTags`** (`idea_tags.dfy`) models the handlers' tag handling.
  - It parses the `;`-separated `tags` field.
  - It applies the tags one by one, each under its own `try`, in `create_idea` and `update_data_item`.
- **`LabelSelect`** (`label_select.dfy`) models gathering the elements whose label is in a set, the generalisation of `[x[i] for i in indices]` used to show that clusters partition the documents.
- **`PyStr`** (`pystr.dfy`) holds the Python string builtins these rely on.
  - `isspace`, `strip`, `split(sep)`, `split()`, `join`, `capitalize`, `s[:n]` and `str(int)`.
  - Each comes with its own contract.

Properties proved:
- The leaf ids of the tree are a permutation of the input ids.
- Every heading is non-empty, carries its level and lies within the maximum depth.
- Headings follow ascending label order.
- Cluster members keep their input order.
- Every percentage is between 0% and 100%.
- A title always has more than two characters.
- The term selection is word-disjoint, starts with the top term and is a subsequence of the ranking.
- Parsed tags are exactly the stripped non-blank segments, in order.
- Blank tag input adds nothing.
- A failing tag does not affect the others.

## Model

| member | source | states |
|---|---|---|
| PyStr.SkipSpace | backend/main.py:266 | the left scan of `strip` stops at the first non-whitespace character, having passed only whitespace |
| PyStr.TrimEnd | backend/main.py:266 | the right scan of `strip` stops after the last non-whitespace character, never crossing the left scan, having passed only whitespace |
| PyStr.Strip | backend/main.py:266 | `tag.strip()` has no leading or trailing whitespace, is no longer than its input, and is empty exactly when the input is all whitespace; it is a contiguous middle part of the input, and everything removed on either side is whitespace |
| PyStr.Split | backend/main.py:266 | `s.split(';')` has one piece more than there are `;`, and no piece contains `;` |
| PyStr.JoinSplit | backend/main.py:266 | joining the split pieces with the separator gives back the input |
| PyStr.SplitJoin | backend/main.py:266 | splitting pieces that hold no separator, after joining them, gives back the pieces |
| PyStr.Words | backend/data_similarity.py:234 | `term.split()` gives non-empty pieces that contain no whitespace |
| PyStr.Capitalize | backend/data_similarity.py:248 | `t.capitalize()` keeps the length, upper-cases the first character and lower-cases the rest |
| PyStr.Take | backend/data_similarity.py:250 | `s[:n]` is the prefix of length `min(n, len(s))` |
| PyStr.NatToStr | backend/data_similarity.py:143 | `str(n)` is a non-empty digit string with no leading zero |
| PyStr.ParseNatToStr | backend/data_similarity.py:143 | reading the decimal string of `n` back gives `n` |
| Originality.Trunc | backend/data_similarity.py:143 | `int(x)` truncates toward zero: below `x` by less than one when `x >= 0`, above it by less than one when `x < 0` |
| Originality.PercentOfScore | backend/data_similarity.py:143 | a score in [0, 1] prints as `p%`, where `p` in 0..100 is the truncation of `100x`, and the string reads back as `p` |
| Originality.PercentExtremes | backend/data_similarity.py:143 | the scores 0 and 1 print as "0%" and "100%" |
| Originality.SumBounds | backend/data_similarity.py:165 | the sum of values within [lo, hi] lies between `n*lo` and `n*hi` |
| Originality.MeanWithin | backend/data_similarity.py:165 | the mean of a non-empty cluster's scores lies within the members' bounds |
| Originality.Min | backend/data_similarity.py:115 | the column minimum is at most every value and is one of them |
| Originality.Max | backend/data_similarity.py:115 | the column maximum is at least every value and is one of them |
| Originality.MinMaxScale | backend/data_similarity.py:115 | the scaler refuses an empty column, and otherwise gives one value per input |
| Originality.ScaleValueProperties | backend/data_similarity.py:115 | scaling a value within [lo, hi] lands in [0, 1], is monotone, sends lo to 0 and, for a non-zero range, hi to 1 |
| Originality.MinMaxScaleProperties | backend/data_similarity.py:115 | scaled values are in [0, 1] and keep the input order; the minimum maps to 0 and, unless all values are equal, the maximum maps to 1 |
| Originality.OriginalityScoresProperties | backend/data_similarity.py:114-115 | every document gets a score in [0, 1], and a lower negative outlier factor (a more isolated document) never gets a lower score |
| SectionTitle.CapitalizeAll | backend/data_similarity.py:248 | every selected term is capitalised, in order |
| SectionTitle.SyntheticTitle | backend/data_similarity.py:204-253 | the title always has more than two characters, on every path including the fallbacks |
| SectionTitle.GreedyProperties | backend/data_similarity.py:225-245 | the greedy pass keeps what was chosen, adds terms in ranked order, stays at two or fewer and word-disjoint, and when it stops short every term it passed over shares a word with a chosen one |
| SectionTitle.DisjointExtend | backend/data_similarity.py:234-245 | appending a term that shares no word with the selection keeps the selection word-disjoint |
| SectionTitle.SkipStep | backend/data_similarity.py:237-242 | skipping a redundant term keeps the chosen terms a subsequence of the ranking |
| SectionTitle.SkipCovered | backend/data_similarity.py:236-242 | a term skipped as redundant stays redundant with every extension of the selection |
| SectionTitle.TailCovered | backend/data_similarity.py:236-242 | when the first term is redundant and every later one is chosen or redundant, every term is |
| SectionTitle.TakeStep | backend/data_similarity.py:244-245 | appending a non-redundant term keeps the selection's prefix, its ranked order and the coverage of passed-over terms |
| SectionTitle.SecondPick | backend/data_similarity.py:227-245 | once one term is chosen, the second chosen term is the first ranked term that shares no word with it, every term before it being skipped as redundant |
| SectionTitle.SelectionSecond | backend/data_similarity.py:227-245 | with two terms chosen, the second is the first term after the top one that shares no word with the top one |
| SectionTitle.SelectionProperties | backend/data_similarity.py:225-245 | at most two terms are chosen; no two share a word; the top-ranked term is chosen first; the choice keeps ranked order; with fewer than two chosen, every other term shares a word with a chosen one; with two chosen, the second is the first later term sharing no word with the top one |
| SectionTitle.JoinStartsWith | backend/data_similarity.py:248 | a `" & "` join starts with its first part |
| SectionTitle.TitleStartsWithTopTerm | backend/data_similarity.py:225-250 | when ranking succeeds and the top term has at least three characters, the title starts with that term capitalised |
| SectionTitle.TitleFallbacks | backend/data_similarity.py:204-253 | an empty cluster gives "New Section"; a failed extraction gives "Section : " + first 30 characters + "..."; a joined title of more than two characters is the title, and any shorter one (an empty ranking among them) gives "Divers & " + first 20 characters |
| SectionTitle.IsRedundant | backend/data_similarity.py:234-242 | the inner loop with its `break` reports a term redundant exactly when it shares a word with a chosen term |
| SectionTitle.SelectTerms | backend/data_similarity.py:225-245 | the nested loop with its `break` and `is_redundant` flag computes exactly the greedy selection: at most two terms, pairwise word-disjoint |
| SectionTitle.GenerateSyntheticTitle | backend/data_similarity.py:190-253 | the step-by-step title is the title `SyntheticTitle` describes, with more than two characters |
| TocPartition.Embeddings | backend/data_similarity.py:136 | one embedding per document |
| TocPartition.IntSqrt | backend/data_similarity.py:146 | `int(sqrt(n))` is the largest `r` with `r*r <= n` |
| TocPartition.ClusterCountBounds | backend/data_similarity.py:138-146 | whenever the split branch runs, the requested cluster count is between 2 and the number of documents |
| TocPartition.LabelsBetween | backend/data_similarity.py:156 | the labels occurring in a range come out strictly ascending and are exactly those occurring |
| TocPartition.LabelBound | backend/data_similarity.py:156 | every label lies below the bound |
| TocPartition.Unique | backend/data_similarity.py:156 | `np.unique(labels)` is strictly ascending and holds exactly the labels that occur |
| TocPartition.Where | backend/data_similarity.py:157 | `np.where(labels == u)` gives strictly ascending positions, each holding `u` |
| TocPartition.WhereComplete | backend/data_similarity.py:157 | `np.where(labels == u)` misses no position holding `u` |
| TocPartition.MembersProperties | backend/data_similarity.py:157-162 | a cluster holds exactly the documents with its label, in original relative order, and is empty only for a label that does not occur |
| TocPartition.LeafEntries | backend/data_similarity.py:139-143 | one leaf entry per document |
| TocPartition.Toc | backend/data_similarity.py:118-188 | the table of contents is empty exactly when there are no documents |
| TocPartition.Headings | backend/data_similarity.py:155-186 | the loop over unique labels emits exactly one heading per label |
| TocPartition.LeafRule | backend/data_similarity.py:138-144 | with at most two documents or past the maximum depth: one leaf per document, in order, titled and identified by its id, with text `unformat_text(id, doc)` and its percentage |
| TocPartition.HeadingsAt | backend/data_similarity.py:155-186 | the k-th heading belongs to the k-th unique label |
| TocPartition.SplitRule | backend/data_similarity.py:146-188 | otherwise: one heading per distinct label, ascending; each cluster non-empty; each heading has its synthetic title, the current level, children built one level deeper from that cluster, and the mean score as a percentage |
| TocPartition.TocPartitionsIds | backend/data_similarity.py:118-188 | the leaf ids of the tree are a permutation of the input ids: every document lands in exactly one leaf |
| TocPartition.HeadingsPartitionIds | backend/data_similarity.py:155-186 | the headings of a set of labels hold, as leaves, exactly the documents carrying those labels |
| TocPartition.MemberIds | backend/data_similarity.py:157-161 | a cluster's ids are the ids at its label's positions |
| LabelSelect.SelectCount | backend/data_similarity.py:157-162 | gathering by label keeps each element as often as it occurs at a position whose label is kept |
| LabelSelect.OccurrencesUnion | backend/data_similarity.py:156-162 | occurrences under two disjoint label sets add up |
| LabelSelect.SelectUnion | backend/data_similarity.py:156-162 | gathering by two disjoint label sets together gives, as a multiset, the union of the two gatherings |
| TocPartition.LeafIdsOfLeafNodes | backend/data_similarity.py:139-143 | a list of leaves carries one id per leaf, in order |
| LabelSelect.SelectAll | backend/data_similarity.py:156-157 | gathering by a label set that holds every occurring label gives back everything, in order |
| LabelSelect.SelectNone | backend/data_similarity.py:156-157 | gathering by no label gives nothing |
| TocPartition.TocDisciplined | backend/data_similarity.py:169-183 | every heading carries the level it was built at, lies within the maximum depth and has at least one child; children sit one level deeper |
| TocPartition.PercentInRange | backend/data_similarity.py:143 | a score in [0, 1] prints as a whole percentage between 0 and 100 |
| TocPartition.TocPercentages | backend/data_similarity.py:143-183 | with scores in [0, 1], every leaf and every heading in the tree shows a percentage between 0% and 100% |
| TocCache.Read | backend/data_similarity.py:51-57 | a load returns the tree exactly when the file holds one, and `None` for a missing or unreadable file |
| TocCache.Cache.Save | backend/data_similarity.py:33-38 | a writable file then holds the structure; a write error is swallowed and the file keeps its previous content |
| TocCache.Cache.Load | backend/data_similarity.py:51-57 | the load returns the cached tree, or `None` (never an error) when the file is missing or unreadable |
| IdeaTags.StripAll | backend/main.py:266 | one stripped string per segment, each trimmed, and empty exactly when its segment is all whitespace |
| IdeaTags.NonEmpty | backend/main.py:266 | the `if tag.strip()` filter keeps only non-empty strings and never more than it was given |
| IdeaTags.NonEmptyPositions | backend/main.py:266 | the positions of the non-empty strings, strictly ascending, each in range and non-empty |
| IdeaTags.NonEmptyPositionsComplete | backend/main.py:266 | no non-empty string's position is missed |
| IdeaTags.NonEmptyAt | backend/main.py:266 | the k-th kept string is the string at the k-th non-empty position |
| IdeaTags.StripSubstring | backend/main.py:266 | stripping introduces no character, so a tag cut at `;` contains no `;` after stripping |
| IdeaTags.TagListProperties | backend/main.py:266 | the parsed tags are exactly the stripped non-blank `;` segments, in segment order; each is non-empty, trimmed and contains no `;`; there are at most as many as `;` plus one |
| IdeaTags.SplitOfBlank | backend/main.py:264-266 | every segment of a whitespace-only string is whitespace-only |
| IdeaTags.BlankTags | backend/main.py:264-266 | a missing, empty or blank field yields no tags, and the guard never changes the parsed list |
| IdeaTags.FailedTags | backend/main.py:267-273 | every tag whose calls raised is reported, and there are no more reports than tags |
| IdeaTags.FailedPositions | backend/main.py:267-273 | the positions whose calls raised, strictly ascending and each in range |
| IdeaTags.FailedPositionsComplete | backend/main.py:267-273 | no position whose calls raised is missed |
| IdeaTags.FailedTagsAt | backend/main.py:267-273 | the warnings are exactly the failed tags in order: the k-th warning is the tag at the k-th failing position |
| IdeaTags.AppliedStep | backend/main.py:267-273 | one more tag adds its tag when `add_tag` succeeds, and its relation when both calls succeed |
| IdeaTags.FailureIsolation | backend/main.py:267-273 | changing how one tag's calls end changes the added tags and relations by at most that tag |
| IdeaTags.TagTables.AddTag | backend/main.py:269 | the tag is added and the relations are untouched |
| IdeaTags.TagTables.AddRelation | backend/main.py:270 | the link is added and the tags are untouched |
| IdeaTags.TagTables.ApplyTag | backend/main.py:268-273 | a failure is reported exactly when a call raised; a tag is added unless `add_tag` raised, and a link only when both calls succeeded |
| IdeaTags.TagTables.ApplyTags | backend/main.py:267-273 | every tag is attempted in order; the tables gain exactly the tags and links whose calls succeeded; the warnings list the failed tags in order |
| IdeaTags.TagTables.CreateIdea | backend/main.py:260-277 | when `add_data` raises: HTTP 500 and no tag touched; otherwise the parsed tags are applied to the idea's name and the success message names it |
| IdeaTags.TagTables.UpdateDataItem | backend/main.py:332-347 | tags are parsed as on creation, but every new link is attached to the body's `data.name`, while the message names the path's `name`; 500 when `update_data` raises |

## Left out

- UMAP, the Local Outlier Factor fit, agglomerative clustering and the TF-IDF vectorizer are foreign numeric code.
  - Outlier factors are an input of `Originality.OriginalityScores`.
  - Clustering is `Collaborators.cluster`, whose only contract is one label per embedding.
  - The term ranking is `Collaborators.rank`, which returns `None` where the vectorizer raises.
  - The `argsort` tie order is not modelled.
- The lower-casing and `re.sub(r'[^\w\s]', ' ', …)` cleaning before TF-IDF are part of `rank`, because Unicode `\w` is not modelled.
- Floating point is modelled as `real`. For example, `int(0.29 * 100)` can be 28 in IEEE arithmetic; here it is 29.
- `np.sqrt` is modelled as an exact integer square root.
- `float32` embeddings are not modelled.
- PyStr.Capitalize: only ASCII letters change case; Python's full Unicode case mapping and title-casing of the first character are not modelled.
- PyStr.Words: states only that its pieces are non-empty and contain no whitespace. That a whitespace-only string has no words is not stated, because that proof is too costly.
- `utils.unformat_text` is not part of this model; it is the parameter `Collaborators.unformat`.
- The four parallel lists `docs`, `ids`, `embeddings` and `originalities` are zipped into one `Item` per document.
  - So the model assumes they have equal length.
  - In the source, the leaf comprehension's `zip` would silently truncate to the shortest list.
- The orchestrator `DataSimilarity.generate_toc_structure` is left out. It fetches all ideas from ChromaDB, scores them, builds the tree and saves it.
  - The cache it writes is modelled in `TocCache`, and the steps in between in the other modules.
  - Its caller at backend/main.py:430 passes `max_items`, but the method takes no argument. That call raises a `TypeError`, so the `/toc/structure` handler (backend/main.py:414) as written always answers HTTP 500.
- The cache file's JSON encoding is not modelled.
  - A tree is always serialisable, so only a failure to open the file (`writable = false`) is modelled.
  - `open(…, 'w')` truncates before writing, so a failure midway through writing would leave an unreadable file. This model has no such failure.
- backend/main.py:11-15 imports `add_data`, `update_data`, `get_data`, `get_data_from_tags`, `get_selected_data`, `get_description`, `get_tags_from_data`, `remove_data` and `get_similar_data` from `data_handler`, which defines none of them (it has `add_idea`, backend/data_handler.py:256, and `update_idea`, :436, instead).
  - As written, that import raises `ImportError` when the module loads, so no handler can run, `create_idea` and `update_data_item` (backend/main.py:248-277, 318-347) among them.
  - `IdeaTags` describes these two handlers as they would behave once the imports resolve.
- `add_data` and `update_data` are modelled only by whether they raise. `add_tag` and `add_relation` (backend/data_handler.py:298-350) are modelled by their effect on the tag and relation tables, with each call's failure an input.
  - The idea's own row (name and description) is not modelled.
  - The warning `print` becomes the returned list of failed tags.
  - The debug `print` in the update handler is dropped.
- The rest of the backend is left out: authentication, configuration, the Chroma wrapper, database maintenance and HTTP routing.
