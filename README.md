# Join-relation pruning of the optimizer's bottom-up join search

This project models, in Dafny, the pruning routines of the early PostgreSQL
query optimizer (`src/backend/optimizer/path/prune.c`). During the bottom-up
search over join orders, every level produces candidate join relations
(`RelOptInfo` nodes). The pruning routines do four things with them:

- `prune_joinrels` / `prune_joinrel` remove duplicate relations. Two relations
  are duplicates when their `relids` name the same base relations. The first
  one survives, and the path lists of the later ones are folded into its path
  list with `add_pathlist`.
- `prune_rel_paths` / `prune_rel_path` work on each relation in turn. They
  choose the cheapest path with `set_cheapest` and scan the path list for the
  first path without a sort operator (the "unordered" path). That path is
  dropped when it is not the cheapest and the relation is `pruneable`, and is
  recorded in `unorderedpath` otherwise. The relation's `size` is then
  re-estimated from the cheapest path, and `elog(ERROR)` is raised when that
  path is not a join path.
- `merge_joinrels` joins two already pruned lists. An entry of the second
  list that duplicates a relation of the first is folded into it.
- `prune_oldrels` drops every relation that has join edges, all of them
  inactive. A relation without join edges is kept.

## Structure

- `seqs.dfy` (module `Seqs`): the list primitives `lremove` (`RemoveFirst`)
  and the reversal that repeated `lcons` builds (`Reverse`).
- `relation.dfy` (module `Relation`): the `RelOptInfo` and `Path` classes,
  the `JoinInfo` value, the model's reading of the relid comparison `same`
  (`Same`, which compares canonical sorted forms and is proved to be set
  equality), and the types of the external primitives.
- `dedup.dfy` (module `Duplicates`): the specification of deduplication. It
  defines the list that survives (`Dedup`, `NotSameAs`, `Unmatched`) and the
  path list a survivor accumulates (`FoldDuplicates`), with their lemmas.
- `prune.dfy` (module `Prune`): the routines of prune.c as imperative methods
  over the `RelOptInfo` objects, each proved against those specifications.

`RelOptInfo` is a class: prune.c updates `pathlist`, `unorderedpath`, `size`
and, through `set_cheapest`, `cheapestpath` in place. The methods name those
fields in their `modifies` clauses one by one, so the frame itself says that
nothing else changes. `relids` is never written by these routines and is a
`const`. `Path` is a class because paths are compared by identity
(`unorderedpath != cheapest`, `lremove`). Of a path only two facts matter
here: whether its ordering has a sort operator, and whether it is a join path.

The external primitives are parameters of the methods:

- `add_pathlist` is a function `(rel, list, list) -> list`. Nothing is assumed
  about the list it returns. Being a Dafny function, it is taken to be
  deterministic, to have no effects, and to depend only on its three arguments
  (for the relation, on its identity, not on its fields).
- `set_cheapest` is a function `(rel, list) -> Path`. The one property the
  proofs use, that it picks a member of the list, is a precondition of the
  lemma that needs it (`SettledKeepsCheapest`).
- `compute_joinrel_size` is a function from a path to an integer.

`elog(ERROR, "non JoinPath called")` ends `PruneRelPaths` with the outcome
`ElogError(message, at)`. Relations after `at` are left untouched.

Two points in prune.c are modelled as follows:

- `prune_joinrel` declares `i` but iterates with an undeclared `r1`
  (prune.c:64-67). The model follows the evident intent and iterates over
  `other_rels`.
- In `prune_rel_paths` the loop variable `path` is never reset between
  relations (prune.c:100, 108-114). The model keeps this behaviour exactly:
  `ScannedPath` returns the first path without a sort operator, or the last
  path when every path has one. For an empty path list it returns the path left
  over from the previous relation (NULL for the first one). `CarriedPath`
  threads it through the list. `OrderedFallbackPruned` states the consequence:
  when every path is ordered, the last (ordered) path is the one pruned.

`prune_oldrels` prepends each kept relation with `lcons` (prune.c:203, 212),
so the survivors come out in reverse input order. `PruneOldrels` states that
order and, separately, which relations are kept.

## Model

| member | source | states |
|---|---|---|
| `Seqs.RemoveFirstShape` | src/backend/optimizer/path/prune.c:144 | `lremove` drops only the first occurrence of the path and keeps the others in order; a list without it is returned unchanged |
| `Seqs.RemoveFirstMultiset` | src/backend/optimizer/path/prune.c:144 | `lremove` takes exactly one copy of the path out of the list, if there is one |
| `Seqs.ReverseSnoc` | src/backend/optimizer/path/prune.c:203 | prepending one more kept relation with `lcons` gives the reversal of the longer list |
| `Seqs.ReverseMembers` | src/backend/optimizer/path/prune.c:188-219 | the reversed list built by `lcons` has the same members as the list of kept relations |
| `Relation.KeyCanonical` | src/backend/optimizer/path/prune.c:71 | the canonical form that the model's `Same` compares is increasing and names exactly the relids of the list |
| `Relation.SameIsSetEquality` | src/backend/optimizer/path/prune.c:71 | the model's `Same(a, b)`, standing for `same`, holds iff the two relid lists (which never repeat an id) contain the same base relations, in any order |
| `Duplicates.NotSameAsMembers` | src/backend/optimizer/path/prune.c:67-82 | the relations `prune_joinrel` keeps are exactly those of `other_rels` whose relids differ from `rel`'s |
| `Duplicates.UnmatchedMembers` | src/backend/optimizer/path/prune.c:167-172 | after the loop of `merge_joinrels`, the second list keeps exactly its relations that match no relation of the first |
| `Duplicates.DedupSnoc` | src/backend/optimizer/path/prune.c:46-47 | deduplication scans left to right: a relation survives, in its original position relative to the other survivors, iff no earlier relation has its relids |
| `Duplicates.DedupDistinct` | src/backend/optimizer/path/prune.c:37-48 | no two relations left by `prune_joinrels` have the same relids |
| `Duplicates.DedupMembers` | src/backend/optimizer/path/prune.c:37-48 | the survivors are exactly the first occurrences of each relids set |
| `Duplicates.DedupOfDistinct` | src/backend/optimizer/path/prune.c:46-47 | a list whose relids are pairwise distinct is left as it is |
| `Duplicates.DedupIdempotent` | src/backend/optimizer/path/prune.c:37-48 | deduplicating twice leaves the list deduplicating once leaves |
| `Duplicates.MergeIsDedup` | src/backend/optimizer/path/prune.c:162-174 | for two lists without duplicates, the merged list is the first list followed by the unmatched rest of the second, equals the deduplication of their concatenation, and has pairwise distinct relids |
| `Duplicates.FoldOnlySame` | src/backend/optimizer/path/prune.c:71-80 | only relations with the same relids contribute to the path list `add_pathlist` builds; the others are passed over |
| `Duplicates.FoldNoDuplicates` | src/backend/optimizer/path/prune.c:71-80 | a relation without duplicates keeps its path list unchanged |
| `Prune.PruneJoinrel` | src/backend/optimizer/path/prune.c:61-83 | returns the relations of `other_rels` with other relids, in order; `rel`'s path list becomes `add_pathlist` applied once per duplicate, in encounter order; only `rel.pathlist` is written |
| `Prune.PruneJoinrels` | src/backend/optimizer/path/prune.c:37-48 | the list becomes its deduplication; each first occurrence absorbs the path lists of all later relations with its relids; every relation dropped from the list keeps its path list |
| `Prune.PrunedJoinrelsStable` | src/backend/optimizer/path/prune.c:71-80 | on a list with pairwise distinct relids every relation is a first occurrence and keeps its path list, so `prune_joinrels` changes nothing |
| `Prune.MergeJoinrels` | src/backend/optimizer/path/prune.c:162-174 | returns the first list followed by the second list's relations that match none of the first; each relation of the first list absorbs the path lists of its duplicates in the second |
| `Prune.CandidateIndex` | src/backend/optimizer/path/prune.c:108-114 | the scan stops at the first path without a sort operator, or at the last path when every path has one |
| `Prune.ScanPathlist` | src/backend/optimizer/path/prune.c:100-114 | the loop variable ends as the path the scan stops at; for an empty path list it keeps the value it had before |
| `Prune.OrderedFallbackPruned` | src/backend/optimizer/path/prune.c:108-147 | when every path is ordered, the last path is treated as the unordered one, and a pruneable relation loses it unless it is the cheapest |
| `Prune.PrunedPaths` | src/backend/optimizer/path/prune.c:140-147 | pruning removes at most one copy of the given unordered path, keeps every other path and the cheapest path, and changes nothing in a relation that is not pruneable |
| `Prune.PruneRelPath` | src/backend/optimizer/path/prune.c:134-150 | returns the path `set_cheapest` picks and records it; an unordered path other than the cheapest is removed from a pruneable relation and its `unorderedpath` cleared; otherwise the path list is unchanged and `unorderedpath` is the argument |
| `Prune.PruneRelPaths` | src/backend/optimizer/path/prune.c:95-121 | each relation in turn has its size reset, its carried-over unordered candidate pruned or kept, and its size set from its cheapest join path; the first relation whose cheapest path is not a join path stops the loop with `elog(ERROR)` and size 0; later relations are untouched |
| `Prune.SettledKeepsCheapest` | src/backend/optimizer/path/prune.c:104-120 | every relation `prune_rel_paths` reaches records the path `set_cheapest` picks and keeps it in its path list, provided that path is a member of the list; a non-pruneable relation keeps its whole path list |
| `Prune.UnexhaustedMembers` | src/backend/optimizer/path/prune.c:197-217 | a relation is kept iff its `joininfo` is empty or some entry is not inactive |
| `Prune.PruneOldrels` | src/backend/optimizer/path/prune.c:188-219 | returns exactly the relations that are not exhausted, in reverse input order |

## Left out

- `same` is defined outside prune.c and is not part of this model. `Same` reads it as set equality of the two relid lists, and nothing here checks that reading against its code.
- Any write that `add_pathlist` makes to the paths, to the relation it is given, or to anything else is not modelled. Only the path list it returns is.
- `add_pathlist`, `set_cheapest` and `compute_joinrel_size` live in the path and cost modules, which are not part of this model. They are uninterpreted function parameters. Their cost arithmetic is in floating point and is not modelled.
- Costs are not modelled, so the property that the cheapest path has minimal cost in its list is not stated. What is stated is that the path `set_cheapest` returns stays in the list.
- `set_cheapest` also writes `rel->cheapestpath` (in pathnode.c, which is not part of this model). The model writes that field in `PruneRelPath` and does not model whatever else `set_cheapest` may do.
- `Prune.PruneRelPaths`: requires the relations of the list to be distinct objects. prune.c does not demand it, but a list deduplicated by `prune_joinrels` always satisfies it. Visiting one object twice is not modelled.
- `Prune.MergeJoinrels`: requires the first list to have pairwise distinct relids. The header comment of `merge_joinrels` asks for two lists that are already pruned. Merging into a first list with duplicates is not modelled.
- `elog(ERROR)` performs a non-local exit. The model returns an outcome value instead, and the state reached at the point of the error is exactly what the outcome describes.
- Memory management of the list cells (`nconc`, `lcons`, `append` and the in-place `lnext` rewrite) is modelled as building new sequences. Sharing of list cells between lists is not modelled.
