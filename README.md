# photoburn, modelled in Dafny

photoburn finds groups of near-duplicate images in one directory and keeps
only the best image of each group. Each image gets a perceptual hash (a
64-bit fingerprint). Two images are *close* when their fingerprints differ in
at most `HASH_THRESHOLD` (5) bits. Closeness is extended transitively, so
images joined by a chain of close images form one group. Every grouped image
is then moved into a directory named after the md5 of its group label. When
`--preserve` is not given, each such directory is cleared: update_best picks
the best image under the `--best` policy (ALL, FILESIZE or RESOLUTION). That
image goes back to the original directory, and the rest are deleted with the
directory itself.

The model covers:

- `Groups`, the disjoint-set structure of `groups.py`, as a class over a
  parent map and a rank map (module `UnionFind`).
- photoburn.py's `group_hashes`: nested loops over the dict of hashes that
  unite close images, then a `Counter` filter over the raw parent map
  (module `PhotoburnGrouping`; the filter is in `SharedFilter`).
- find.py's older `group_hashes`, which labels images with uuid labels and
  relabels a whole group on every merge (module `NaiveGrouping`).
- `update_best` and the best-selection loop of `clear_similars`
  (module `BestSelection`).
- `gather_images` and `clear_similars` over an abstract file system
  (module `Reorganize`).

find.py's grouper is proved to report exactly one mathematical partition
(`NaiveGrouping.GroupHashes`). For photoburn.py's grouper, the union-find
sets are proved to be that partition (`PhotoburnGrouping.GroupedClusters`),
but its filtered output is proved not to report it
(`PhotoburnFinding.ExampleNotReported`); a corrected labelling that does is
`PhotoburnGrouping.GroupHashesByRoot`. The partition is
`Fingerprints.Clustered`, which relates two keys when a chain of close keys
joins them (`Fingerprints.ClusteredIffCloseChain`). It is built on the
equivalence closure of a sequence of joined pairs (`Closure.Conn`).

Best selection is not independent of the listing order: `clear_similars`
gives up at the first image update_best cannot rank, even when a later
image dominates all the others. The model follows the code;
`Reorganize.OrderDecidesClearing` exhibits such a directory.

photoburn.py's `group_hashes` counts the values of the raw parent map of
`Groups.get()`, and those values are not always roots. As a result, an image
can be dropped from its group although it has close neighbours; see
"## Findings".

## Model

| member | source | states |
|---|---|---|
| UnionFind.Groups.constructor | groups.py:3-5 | every key starts as its own parent with rank 0, so it is its own representative |
| UnionFind.Groups.Find | groups.py:7-12 | returns the root of x; afterwards x points straight at it, every entry points at its old parent or its root, ranks and representatives are unchanged |
| UnionFind.Groups.Unite | groups.py:14-26 | x and y end up in one set; two keys share a set afterwards exactly when they did before or one was with x and the other with y; uniting keys already in one set changes no rank and no representative |
| UnionFind.Groups.Same | groups.py:28-29 | true exactly when x and y had the same representative; no representative changes |
| UnionFind.Groups.Get | groups.py:31-32 | returns the parent map itself: every key, each mapped to a member of its own set |
| UnionFind.Root | groups.py:7-12 | following parents ends at a root, ranked strictly above x unless x is the root |
| UnionFind.AboveShrinks | groups.py:7-12 | each step towards the root reaches a key of strictly higher rank, so find's recursion ends |
| UnionFind.Compressed | groups.py:7-12 | the parent map after find(x): same keys, still a forest, same representatives, x pointing at its root |
| UnionFind.RedirectToRoot | groups.py:11 | pointing a key at its root keeps the forest and every representative |
| UnionFind.RedirectRootAt | groups.py:11 | pointing x at its root keeps every key's representative |
| UnionFind.Winner | groups.py:21-24 | the root that survives a link: one of the two roots, ranked at least as high as both, and x on a tie |
| UnionFind.Link | groups.py:21-26 | union by rank: of two distinct roots, one goes under the other and ends ranked strictly below it; no other parent changes and no rank grows by more than one |
| UnionFind.LinkKeepsForest | groups.py:21-26 | linking two distinct roots by rank keeps every non-root ranked below its parent |
| UnionFind.LinkRootAt | groups.py:21-26 | after the link, members of the two linked sets go to the winning root and every other representative stays |
| UnionFind.LinkMerges | groups.py:21-26 | the link merges exactly the two sets under the winning root |
| UnionFind.United | groups.py:14-26 | the maps after unite(x, y): the same keys, and no rank drops or grows by more than one |
| UnionFind.UnitedRootAt | groups.py:14-26 | after unite(x, y) the roots of x and y become the winner and every other representative stays |
| UnionFind.MergedSame | groups.py:14-26 | after the merge, two keys share a root exactly when they did, or one was with x and the other with y |
| UnionFind.UniteMerges | groups.py:14-26 | unite merges the set of x with the set of y and changes no other set; when they already coincide (the early return) no rank and no representative changes |
| UnionFind.UnitedKeepsRoots | groups.py:18-19 | unite of two keys of one set keeps ranks and representatives |
| UnionFind.UnitedSameAt | groups.py:14-26 | for two given keys: they share a set after unite exactly when they did before, or each was with x or y |
| UnionFind.RootHasDirectChild | groups.py:31-32 | a root whose set has another member is the parent of some other key, so get() shows it as a value twice |
| UnionFind.SameSetEquivalence | groups.py:28-29 | same() is reflexive, symmetric and transitive in every reachable state |
| Closure.ConnSnoc | photoburn.py:78 | joining one more pair relates a and b exactly when they were related, or each was related to one end of the pair |
| Closure.ConnReflexive | photoburn.py:71 | every key is related to itself |
| Closure.ConnSymmetric | photoburn.py:78 | the relation is symmetric |
| Closure.ConnTransitive | photoburn.py:78 | the relation is transitive |
| Closure.ConnEquivalence | photoburn.py:71-78 | the relation is an equivalence for every sequence of joined pairs |
| Closure.ConnGrows | photoburn.py:72-78 | joining more pairs never separates two keys |
| Closure.ConnHasEdges | photoburn.py:78 | both ends of every joined pair are related |
| Closure.AdjacentConn | photoburn.py:78 | keys one joined pair apart are related |
| Closure.ChainConn | photoburn.py:72-78 | the two ends of a chain of joined pairs are related |
| Closure.ChainGrows | photoburn.py:72-78 | a chain stays a chain when more pairs are joined |
| Closure.ChainJoin | photoburn.py:72-78 | two chains that meet end to end form one chain |
| Closure.ConnChain | photoburn.py:72-78 | related keys are joined by a chain of joined pairs |
| Closure.ConnIffChain | photoburn.py:72-78 | related exactly when a chain of joined pairs links them |
| Closure.UntouchedAlone | photoburn.py:72-78 | a key no joined pair mentions is related only to itself |
| Fingerprints.Hamming | photoburn.py:77 | the hash difference `v1 - v2` is at most the width, and zero exactly for equal hashes |
| Fingerprints.HammingSymmetric | photoburn.py:77 | the distance does not depend on the order of the two hashes |
| Fingerprints.Close | photoburn.py:77 | the `v1 - v2 <= HASH_THRESHOLD` test; equal fingerprints always pass it, so only `k1 == k2` keeps a key from joining itself |
| Fingerprints.CloseSymmetric | find.py:53 | closeness within the threshold is symmetric |
| Fingerprints.PairsOf | photoburn.py:74-78 | the pairs one inner loop joins: at most one per visited key, each from k1 to a different, close key |
| Fingerprints.PairsOfMembers | photoburn.py:74-78 | for one outer key, the inner loop joins exactly the other keys within the threshold |
| Fingerprints.ClosePairs | photoburn.py:72-78 | the pairs the nested loops join: each from an outer key to a different, close key |
| Fingerprints.ClosePairsMembers | photoburn.py:72-78 | the nested loops join exactly the ordered pairs of distinct close keys whose first key was an outer key |
| Fingerprints.PairsOfStep | photoburn.py:74-78 | each turn of the inner loop adds at most the one pair it visits |
| Fingerprints.ClosePairsStep | photoburn.py:72-78 | each turn of the outer loop adds the inner loop's pairs for its key |
| Fingerprints.ChainStaysAmongKeys | photoburn.py:72-78 | a chain of joined pairs that starts at an image stays among the images |
| Fingerprints.CloseChainOfChain | photoburn.py:72-78 | a chain of joined pairs is a chain of close images |
| Fingerprints.ChainOfCloseChain | photoburn.py:72-78 | a chain of close images is a chain of joined pairs |
| Fingerprints.ClusteredIffCloseChain | photoburn.py:72-78 | two images share a cluster exactly when a chain of images, each within the threshold of the next, links them (closeness extended transitively) |
| Fingerprints.CloseClustered | photoburn.py:77-78 | two images within the threshold share a cluster |
| Fingerprints.FarKeyAlone | photoburn.py:80 | an image farther than the threshold from all others is alone in its cluster |
| PhotoburnGrouping.Initial | groups.py:3-5 | the maps of Groups(hashes.keys()): a forest over exactly the keys in which every key is a root of its own |
| PhotoburnGrouping.InitialForest | photoburn.py:71 | Groups(hashes.keys()) starts from a valid forest over the keys |
| PhotoburnGrouping.InitialTracks | photoburn.py:71 | at the start no two distinct keys share a set |
| PhotoburnGrouping.UnitedForest | photoburn.py:78 | unite keeps a valid forest over the same keys |
| PhotoburnGrouping.InnerPass | photoburn.py:74-78 | the maps after part of the inner loop: a valid forest over the same keys |
| PhotoburnGrouping.OuterPass | photoburn.py:72-78 | the maps after part of the outer loop: a valid forest over the image keys |
| PhotoburnGrouping.Grouped | photoburn.py:71-78 | the maps after both loops: a valid forest over the image keys |
| PhotoburnGrouping.UniteTracksPair | photoburn.py:78 | unite(img_id, k2), with img_id in k1's set, relates two given keys exactly as joining (k1, k2) does |
| PhotoburnGrouping.UniteTracks | photoburn.py:78 | unite(img_id, k2) relates all keys exactly as joining (k1, k2) does, and img_id stays in k1's set |
| PhotoburnGrouping.InnerTracksStep | photoburn.py:74-78 | one inner turn keeps the sets equal to the classes of the pairs joined so far |
| PhotoburnGrouping.InnerTracks | photoburn.py:74-78 | the inner loop for k1 leaves the sets equal to the classes of the earlier pairs plus k1's close pairs |
| PhotoburnGrouping.CompressTracks | photoburn.py:73 | find(k1) changes no set, and its result is in k1's set |
| PhotoburnGrouping.OuterTracksStep | photoburn.py:72-78 | one outer turn keeps the sets equal to the classes of the close pairs joined so far |
| PhotoburnGrouping.OuterTracksStart | photoburn.py:71 | before the loops the sets match the empty list of pairs |
| PhotoburnGrouping.OuterTracks | photoburn.py:72-78 | after the first n outer keys the sets are the classes of their close pairs |
| PhotoburnGrouping.GroupedClusters | photoburn.py:71-78 | after both loops two images share a set exactly when they share a cluster |
| PhotoburnGrouping.GroupedAllClusters | photoburn.py:71-78 | the same, for all pairs of images at once |
| PhotoburnGrouping.InnerStep | photoburn.py:75-78 | one inner turn skips k2 == k1 and far keys, and otherwise unites img_id with k2 |
| PhotoburnGrouping.VisitPair | photoburn.py:75-78 | the inner loop's body moves the Groups object one inner turn forward |
| PhotoburnGrouping.JoinClose | photoburn.py:74-78 | the inner loop moves the Groups object through the whole inner pass |
| PhotoburnGrouping.VisitKey | photoburn.py:73-78 | the outer loop's body moves the Groups object one outer turn forward |
| PhotoburnGrouping.RunPasses | photoburn.py:72-78 | the outer loop leaves the Groups object in the state after all outer turns |
| PhotoburnGrouping.Cluster | photoburn.py:71-78 | the loops return a Groups object whose sets are exactly the clusters |
| PhotoburnGrouping.ListedHasMate | photoburn.py:80-84 | an image the counter keeps shares its parent value with another image of its cluster, so it is never alone in its cluster |
| PhotoburnGrouping.RootListed | photoburn.py:80-84 | the root of a cluster with two or more members is some other image's parent, so the counter keeps it |
| PhotoburnGrouping.GroupHashes | photoburn.py:68-86 | the filtered items of the raw parent map: each image at most once, each with a label from its own cluster; every listed image has a cluster mate (singletons are filtered), and the root of every cluster with two or more members is listed |
| PhotoburnGrouping.Reps | groups.py:7-12 | the representative of every key |
| PhotoburnGrouping.LabelsInCluster | photoburn.py:81-84 | labelling each image with a member of its set makes the filter list each image at most once, each with a label from its own cluster |
| PhotoburnGrouping.LabelOf | groups.py:7-12 | find(k) returns k's representative and changes none |
| PhotoburnGrouping.RootLabelsReport | photoburn.py:81-84 | labels equal to representatives report exactly the clusters |
| PhotoburnGrouping.LabelAll | photoburn.py:81 | labelling every image with find(k) gives each its representative |
| PhotoburnGrouping.GroupHashesByRoot | photoburn.py:68-86 | the corrected grouper (values are roots) reports exactly the clusters: an image is listed exactly when its cluster has another member, and two listed images share a label exactly when they share a cluster |
| PhotoburnFinding.PrintDistance | photoburn.py:77 | spreading four bits over blocks of five multiplies their distance by five |
| PhotoburnFinding.ExampleHashesShape | photoburn.py:77 | in the example, two distinct images are within HASH_THRESHOLD exactly for the pairs A-B, A-E, E-D and D-C |
| PhotoburnFinding.CompressedShallow | groups.py:7-12 | find on a key whose parent is a root changes nothing |
| PhotoburnFinding.CompressedDepthTwo | groups.py:7-12 | find on a key two steps below its root points it at the root |
| PhotoburnFinding.UnitedLink | groups.py:14-26 | unite of two keys whose parents are distinct roots links those roots |
| PhotoburnFinding.UnitedSame | groups.py:18-19 | unite of two keys whose parents are one root changes nothing |
| PhotoburnFinding.OuterE | photoburn.py:71-78 | the run over A, C, B, D, E ends with parents A:C, B:A, C:C, D:C, E:C |
| PhotoburnFinding.LoneParentDropped | photoburn.py:82-84 | a key whose parent no other key has as parent is filtered out |
| PhotoburnFinding.OnlyBUnderA | photoburn.py:81-84 | after the run, B is left out of the output |
| PhotoburnFinding.UnlistedMateNotReported | photoburn.py:80-84 | an output that omits an image with a cluster mate does not report the clusters |
| PhotoburnFinding.GroupHashesDropsMember | photoburn.py:68-86 | as written, group_hashes omits B although B is within the threshold of A |
| PhotoburnFinding.ExampleDropsB | photoburn.py:68-86 | the same, on the concrete example fingerprints |
| PhotoburnFinding.ExampleNotReported | photoburn.py:68-86 | as written, the output for the example does not report the clusters |
| SharedFilter.Count | photoburn.py:82 | Counter(values)[v] is at most the number of values, and positive exactly when v occurs |
| SharedFilter.CountAboveOne | photoburn.py:84 | a value is counted more than once exactly when two positions hold it |
| SharedFilter.Values | photoburn.py:82 | dict.values() in the order of the keys |
| SharedFilter.Items | photoburn.py:83 | dict.items() in the order of the keys |
| SharedFilter.Shared | photoburn.py:84 | keeps exactly the items whose value is counted more than once |
| SharedFilter.SharedEntries | photoburn.py:81-84 | the filtered items of a dict: no more than it has keys, each a key with its own value, each value counted more than once |
| SharedFilter.SharedEntryAt | photoburn.py:83-84 | every filtered item is a key of the dict with its own value |
| SharedFilter.SharedEntriesAt | photoburn.py:83-84 | all filtered items are keys of the dict with their own values |
| SharedFilter.SharedEntriesIff | find.py:63-65 | an item survives exactly when another key carries the same value |
| SharedFilter.SharedKeepsClasses | find.py:63-65 | the filter keeps or drops all keys of one value together |
| SharedFilter.SharedDistinct | photoburn.py:83-84 | no key appears twice in the filtered items |
| SharedFilter.ListedIff | find.py:63-65 | a key is listed exactly when another key shares its value |
| SharedFilter.ListedIffClusteredAt | find.py:63-65 | under labels that follow the clusters, an image is listed exactly when its cluster has another member |
| SharedFilter.SameValueIffClustered | find.py:63-65 | under labels that follow the clusters, two listed images share a label exactly when they share a cluster |
| SharedFilter.SharedReportsClusters | find.py:63-65 | labels that follow the clusters, once filtered, report the clusters |
| NaiveGrouping.Apart | find.py:45-48 | a key that no joined pair mentions is related to no other key |
| NaiveGrouping.FreshFollows | find.py:46-48 | a fresh label for an unlabelled key keeps labels equal exactly for related keys |
| NaiveGrouping.JoinNewFollows | find.py:55-56 | an unlabelled k2 taking k1's label joins the pair (k1, k2) |
| NaiveGrouping.Relabelled | find.py:58-60 | after relabelling original_id to img_id the two label classes are one, original_id is gone, and every other key keeps its label |
| NaiveGrouping.JoinOldFollows | find.py:57-60 | relabelling k2's whole group with k1's label joins the pair (k1, k2) |
| NaiveGrouping.Relabel | find.py:58-60 | the relabelling loop gives every key labelled original_id the label img_id and leaves the others alone |
| NaiveGrouping.LabelOuter | find.py:45-48 | the outer key keeps its label, or gets one no key carries yet |
| NaiveGrouping.VisitPair | find.py:51-60 | one inner turn keeps the labels equal exactly for keys the pairs joined so far relate |
| NaiveGrouping.InnerEdgesStep | find.py:50-60 | each inner turn adds at most the one pair it visits |
| NaiveGrouping.JoinClose | find.py:50-60 | the inner loop joins k1's close pairs and keeps the labels following them |
| NaiveGrouping.VisitKey | find.py:44-60 | one outer turn labels its key and keeps the labels following the close pairs so far |
| NaiveGrouping.LabelledReports | find.py:62-65 | once all keys are visited, the filtered labels report the clusters |
| NaiveGrouping.GroupHashes | find.py:40-70 | find.py's grouper reports exactly the clusters |
| BestSelection.UpperChar | photoburn.py:139 | upper-cases an ASCII lower-case letter and leaves every other character |
| BestSelection.Upper | photoburn.py:139 | str.upper(), character by character, keeping the length |
| BestSelection.UpperIdempotent | photoburn.py:139 | upper-casing twice is upper-casing once |
| BestSelection.PolicyOf | photoburn.py:139-143 | FILESIZE and RESOLUTION are chosen exactly by their upper-cased names; any other name gives ALL |
| BestSelection.PolicyIgnoresCase | photoburn.py:139-143 | the policy does not depend on the case of its name |
| BestSelection.UnknownNameMeansAll | photoburn.py:141-143 | a name that is neither FILESIZE nor RESOLUTION selects ALL |
| BestSelection.DominatesTransitive | photoburn.py:145-193 | dominance under a policy is transitive |
| BestSelection.Start | photoburn.py:201 | the best dict before the loop names no file, and every image under every policy replaces it |
| BestSelection.EntryOf | photoburn.py:149-154 | `best.update` takes the image's file and all three of its measures |
| BestSelection.Judge | photoburn.py:145-195 | update_best's verdict: it replaces the best exactly when the image dominates it; "worse" means the best dominates the image and not the other way |
| BestSelection.JudgeUndeterminedWhen | photoburn.py:145-193 | FILESIZE always ranks; RESOLUTION fails exactly on crossed sizes; ALL fails exactly when the image neither dominates nor is strictly smaller and dominated |
| BestSelection.AllEqualSizeSmallerUndetermined | photoburn.py:156-161 | under ALL, an equally large file with fewer pixels is not ranked, although the best dominates it |
| BestSelection.Step | photoburn.py:138-195 | one call of update_best: None exactly when the image cannot be ranked; otherwise a best that is one of the two compared and dominates both, the image itself whenever the verdict is "better" (so the later image wins an exact tie) and the old best whenever it is "worse" |
| BestSelection.Scan | photoburn.py:204-212 | the loop over the listing; when it completes, its best dominates the start |
| BestSelection.ScanDominates | photoburn.py:204-212 | when the loop completes, its best dominates the start and every image |
| BestSelection.ScanPicksImage | photoburn.py:201-212 | from the empty best, a loop that completes over some images ends on one of them |
| BestSelection.ScanFileSizeCompletes | photoburn.py:163-177 | under FILESIZE the loop never gives up |
| BestSelection.ScanStaysNone | photoburn.py:210-212 | once the loop has given up, no later image changes that |
| BestSelection.Best.constructor | photoburn.py:201 | the best dict starts with no file and zero sizes |
| BestSelection.Best.Update | photoburn.py:138-195 | update_best: returns False exactly when the image cannot be ranked, and leaves the dict unchanged then; otherwise the dict holds the better of the two |
| BestSelection.FindBest | photoburn.py:201-212 | the loop of clear_similars: ok exactly when every image was ranked, and then the dict holds the loop's best |
| Reorganize.Join | photoburn.py:127 | `base / child`: the base, one separator, then the component unchanged |
| Reorganize.GroupDir | photoburn.py:127 | a group's directory lies directly inside base_path and is named by the label's digest |
| Reorganize.GroupDirs | photoburn.py:124-129 | the returned `paths`: every group's directory is in it, and each of them lies directly inside base_path |
| Reorganize.Staged | photoburn.py:132-133 | a grouped file's rename target: its own name, in its group's directory, so it differs from the source whenever the directories differ |
| Reorganize.JoinInjective | photoburn.py:127 | `base / child` names distinct children distinctly |
| Reorganize.GroupDirInjective | photoburn.py:127 | distinct labels get distinct group directories |
| Reorganize.WithDir | photoburn.py:128 | mkdir(exist_ok=True) adds the directory and keeps every file |
| Reorganize.WithDirIdempotent | photoburn.py:128 | making an existing directory changes nothing |
| Reorganize.Moved | photoburn.py:133 | rename puts the file under its name in the destination, replacing any file there, and keeps every other file |
| Reorganize.Unlinked | photoburn.py:220 | unlink removes exactly that file |
| Reorganize.StageablePrefix | photoburn.py:125 | the precondition of gather_images holds for every prefix of the groups |
| Reorganize.Gathered | photoburn.py:121-135 | after gather_images the group directories exist, and files outside them that were not grouped keep their place and attributes |
| Reorganize.GatheredStep | photoburn.py:125-133 | each turn finds its file still in place and makes its group directory |
| Reorganize.SourcesSnoc | photoburn.py:125 | the grouped files of a longer list are those of its prefix plus the last |
| Reorganize.LastOutside | photoburn.py:125-133 | the last grouped file is none of the earlier ones and lies outside their group directories |
| Reorganize.GroupDirsSnoc | photoburn.py:129 | the returned set grows by the last group's directory |
| Reorganize.GatheredSnoc | photoburn.py:125-133 | gathering one more group is one more mkdir and rename |
| Reorganize.MovedKeepsUntouched | photoburn.py:128-133 | a mkdir and a rename leave every file outside the new directory, other than the moved one, where it was |
| Reorganize.MovedKeeps | photoburn.py:133 | a rename leaves alone a file that is neither moved nor replaced, and creates no other file |
| Reorganize.PlacedKept | photoburn.py:132-133 | a later rename of a file with another name keeps an earlier file placed |
| Reorganize.PlacedLast | photoburn.py:132-133 | the last rename places its file in its group directory |
| Reorganize.PlacedAt | photoburn.py:125-133 | a grouped file whose name no later file shares ends in its group directory with its attributes |
| Reorganize.GatheredPlaces | photoburn.py:121-135 | every grouped file ends in its group's directory with its attributes, and no longer where it was |
| Reorganize.GroupDirsPerLabel | photoburn.py:127-129 | the returned directories are one per distinct label |
| Reorganize.Listing | photoburn.py:204 | `glob('*')` lists every file of the directory exactly: a name is listed exactly when the directory holds a file of that name |
| Reorganize.EntryAt | photoburn.py:205-209 | what update_best sees for a listed file: its name, st_size and pixel size |
| Reorganize.Images | photoburn.py:204-207 | the listing's images, in order, with the size and pixel size update_best reads |
| Reorganize.Winner | photoburn.py:204-216 | when the loop completes, its best is a file of the directory that dominates every file of it |
| Reorganize.Removed | photoburn.py:219-223 | the directory and every file in it are gone; the rest is as it was |
| Reorganize.Promoted | photoburn.py:215-223 | the winner is moved into the original directory, and the group directory and its other files are gone |
| Reorganize.IncomparableFirstAborts | photoburn.py:204-212 | listed as a, b, x, the loop gives up at b, which cannot be ranked against a |
| Reorganize.DominantFirstClears | photoburn.py:204-212 | listed as x, a, b, the loop completes and keeps x, which dominates both |
| Reorganize.OrderDecidesClearing | photoburn.py:204-212 | a directory whose third image dominates the other two is left alone in one listing order and cleared down to that image in another |
| Reorganize.Disk.constructor | photoburn.py:121 | the file system starts as given |
| Reorganize.Disk.MkDir | photoburn.py:128 | the state after mkdir(exist_ok=True) |
| Reorganize.Disk.Rename | photoburn.py:133 | the state after rename into a directory |
| Reorganize.Disk.Unlink | photoburn.py:220 | the state after unlink |
| Reorganize.Disk.RmDir | photoburn.py:223 | rmdir of an empty directory removes only that directory |
| Reorganize.Disk.GatherOne | photoburn.py:126-133 | one turn of gather_images: mkdir, then rename into the group directory |
| Reorganize.Disk.ClearGroup | photoburn.py:219-223 | unlinking every listed file, then rmdir, removes the directory and all its files |
| Reorganize.Disk.GatherImages | photoburn.py:121-135 | returns one directory per label and leaves the file system as gather_images specifies |
| Reorganize.Disk.ClearSimilars | photoburn.py:198-223 | clears exactly when every image could be ranked; then the winner is moved back and the directory removed, otherwise nothing changes |

## Left out

- The hashing phase (`calculate_hashes`, `phash`, PIL, the process pool), argument parsing, `main`, `debug` and `print` output, and `iterview` are not modelled. A fingerprint is a sequence of bits; hashes that failed are simply absent from the dict.
- The order in which a dict yields its keys is the `keys` parameter of the groupers. The order of `glob('*')` is the `order` parameter of `ClearSimilars`.
- `uuid.uuid4().hex[:10]` in find.py is modelled as a counter that always yields a label no key carries. Random labels may collide; the model does not capture that.
- The md5 hex digest of a label is an injective naming parameter of `Reorganize`. md5 itself is not modelled.
- `str.upper()` is modelled for ASCII letters only.
- All fingerprints have one width (`Fingerprints.WellFormed`). imagehash raises `TypeError` when two hashes of different shapes are subtracted; phash always gives the same shape, so that error path is not modelled.
- The file system is a set of directories plus a map from file paths to attributes. Permissions, OS errors and any other process touching the files are not modelled. Operations that would raise are excluded by `requires`: renaming a missing file or into a missing directory, unlinking a missing file, removing a non-empty directory, clearing into an original directory that does not exist.
- Reorganize.Disk.GatherImages: requires every grouped file to exist, be listed once, and lie outside every group directory. This is what group_hashes gives it for files of one directory. The source does not check it.
- Reorganize.Disk.ClearSimilars: requires a non-empty directory. On an empty one the source crashes reading the name of `best['file']`, which is `None`.
- Reorganize.Disk.ClearSimilars: the file size and pixel size of each image are read from the model's file attributes; `stat` and `Image.open` are not modelled.
- PhotoburnGrouping.GroupHashes: states that each image is reported at most once, with a label from its own cluster, only when its cluster has another member, and that each such cluster's root is reported. It does not state that every member of such a cluster is reported, or that images of one cluster share a label: as written, the source does neither; see "## Findings".
- The `--preserve` flag only decides whether `clear_similars` runs; it is not modelled separately.

## Findings

| source | as written | input that shows it | evidently intended | confidence | as-written member | corrected member |
|---|---|---|---|---|---|---|
| photoburn.py:81-84 | the counter runs over the raw parent map of `Groups.get()`, whose values need not be roots, so a member whose parent is shared with no other key is filtered out | five images A, C, B, D, E in that dict order, with HASH_THRESHOLD 5. Each fingerprint is four bits, each repeated five times, then 44 zero bits: A 0000, C 0111, B 1000, D 0110, E 0100. B ends up under A, alone, and is dropped although it is within the threshold of A | every image whose cluster has another member is listed, with the cluster's root as its label | not executed | PhotoburnFinding.GroupHashesDropsMember, PhotoburnFinding.ExampleNotReported | PhotoburnGrouping.GroupHashesByRoot |
