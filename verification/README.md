# Verification of the EPUB unpacker

A Dafny model of the logic that turns an EPUB archive held in memory into an
ordered stream of events, with proofs of what that logic promises. It covers:

- the extraction walk with its read-ahead cache and decompression budget
  (`Archive`, `Manifest`, `Passes`, `Extraction`, `ReadAhead`, `Rereading`,
  `Interleaving`, `Guarantees`), and what its events carry (`EventContents`);
- the two table-of-contents readers (`Xml`, `Nav`, `NavSafety`, `NcxMap`,
  `NavMarkup`, `NavMeaning`, `NavRoundTrip`, `Links`);
- the Document fold and its integrity check (`Documents`, `FoldSpec`,
  `DocumentFold`, `FoldMeaning`, `DocumentTree`, `Integrity`), and what the fold makes of a
  call's own events (`Delivery`);
- the upload budget as a protocol of concurrent calls (`UploadBudget`, `Upload`);
- the package document and encryption parsers (`Package`, `PackageParser`,
  `PackageDocument`, `MetadataFields`, `Refinements`, `Encryption`);
- dates, paths and the central directory (`Calendar`, `Datetime`, `DateGrammar`,
  `Href`, `DotSegments`, `Directory`, `Scan`).

`dafny verify dfyconfig.toml` checks the whole project.

The model follows the code's own form. What the source does in loops and with
objects whose fields change (`Budget`, `Preread`, `Sink`, `DocumentFold`,
`Inventory`, `PackageParser`, the two navigation readers, the receiving loop)
is a method or a class, proved against a specification function; the lemmas say
what that function means. XML is a finite sequence of start, empty, text and end
events; an archive is a sequence of entries with declared size, stored size and
the chunks its decompressor yields.

## Findings

Points where the code does something its comments or a first reading would not
suggest. Each is stated by a member of the project.

- The cap of 5000 navigation entries counts entries as they close, children
  first, and a refused entry takes its subtree along. A book whose entries all
  stand under one heading loses its whole outline at 5001 entries
  (`NavRoundTrip.CrowdedEntryIsLost`, `NavRoundTrip.HeadingOverMany`).
- The comment on the nesting cap says that an entry past level 32 joins the
  deepest open one. It is dropped when that one has a label already; in an NCX
  its link still replaces the link of the deepest open entry
  (`NavRoundTrip.DialectsPartAtLevel33`). The two dialects of a forest, of any
  size and depth, read the same exactly when no kept entry at level 32 has a
  later link below it that leads elsewhere
  (`NavRoundTrip.DialectsAgreeExactlyWhen`).
- The NCX reader can hold open entries outside its map, which the navigation
  reader cannot (`NcxMap.NcxEntryOpenOutsideTheMap`). It does exactly when a map
  starts inside an open entry and a later event leads back above that start
  (`NcxMap.OutlivesExactlyWhen`).
- Percent decoding takes `%+5` for an escape (`Href.SignIsDecoded`). Invalid
  escapes are left alone exactly in texts where no `%+` stands before a hex
  digit; in all others the decoded text is shorter
  (`Href.InvalidEscapesAreKeptExactlyWhen`).
- A chapter whose archive path contains `#` can never be the target of an
  outline entry, although the comment in `src/href.rs:152-154` has `%23` in a
  link survive for just such a path (`Delivery.MarkedChapterLosesItsLink`). An
  entry whose link is a chapter's own path points at the chapter exactly when
  the path holds no `#` (`DocumentTree.OwnPathLeadsExactlyWhen`).
- The integrity check accepts documents that are not trees
  (`Integrity.CleanNeedNotBeATree`); what the fold builds always is one.
- A call inflates an entry twice when the spine names a file twice, or when the
  navigation document is one the walk skips and an overlay link uses
  (`ReadAhead.AtMostOnceExactlyWhen`); `Rereading.BookWithARepeat` and
  `Rereading.BookWithNarratedNavigation` are such books. The second needs a
  navigation document in another media type, or one named like an archive or
  listed as obfuscated: any other is always sent
  (`Rereading.MarkupNavigationIsSent`).
- A date may end in `T` with no clock after it; the grammar has that form
  (`DateGrammar.ParseIsTheGrammar`).

## Model

| member | source | states |
|---|---|---|
| Archive.Budget.ReadEntry | src/archive.rs:356-403 | One entry inflated under the budget: the result is decided by the sizes and the ratio, `remaining` and `consumed` move by exactly the bytes returned, and a failed read leaves the budget as it was. |
| Archive.ReadIsBySizeAlone | src/archive.rs:356-462 | The read loop accepts exactly when the declared and the actual size each pass the budget and ratio rules and the decompressor does not fail; the result is the whole content however it is cut into chunks. |
| Archive.ReadExactlyWhen | src/archive.rs:356-462 | An entry is read, and then whole, exactly when its declared and its actual size each fit the budget and are below the floor, or nothing is stored, or the size is below (ratio + 1) times what is stored, and nothing fails. |
| Archive.ContentInOrder | src/archive.rs:376-394 | The content of an entry is its chunks one behind the other. |
| Archive.BudgetIsConserved | src/archive.rs:59-91 | Over any sequence of reads, `remaining + consumed` is conserved, `consumed` grows by the total inflated size and `entries` by the number of reads. |
| Archive.HonestReadsByTotal | src/archive.rs:437-462 | When headers tell the truth, a sequence of reads succeeds exactly when every ratio is allowed and the total fits the budget. |
| Archive.HonestOrderIsFree | src/archive.rs:356-403 | When headers tell the truth, whether a set of reads succeeds does not depend on their order. |
| Archive.CostOfMore | src/archive.rs:356-403 | Two successful runs of reads that differ by some extra reads differ in all three counters by exactly what those inflate to. |
| Directory.RefuseMergedRecords | src/archive.rs:200-235 | The loops over the kept starts and over the directory bytes compute the walk's verdict. |
| Directory.AcceptedExactlyWhenDistinct | src/archive.rs:173-235 | For records end to end and a reader that keeps the last record of each raw name, the walk accepts exactly when raw names are pairwise distinct; otherwise it names the first dropped record, and it never loses its place. |
| Directory.AcceptedExactlyWhenEndToEnd | src/archive.rs:205-235 | Over any bytes: accepted exactly when the kept records lie end to end by their own lengths from the directory's start to the last of them; a dropped name is reported exactly when they do so up to a record of that name that was not kept; overshooting or running out of bytes is refused. |
| Directory.NothingPastTheLastStartIsRead | src/archive.rs:190-193 | The verdict is the same for any two archives that agree up to the start of the last kept record, whatever follows. |
| Directory.PrintedLiesEndToEnd | src/archive.rs:214-233 | A directory printed record by record with its little-endian lengths is laid out as the walk expects, so both results about records end to end apply to it. |
| Directory.ReadRecord | src/archive.rs:216-229 | The three lengths at offsets 28, 30 and 32 and the name at offset 46 read back what was printed. |
| Scan.ScanEntries | src/archive.rs:289-347 | The scan succeeds exactly when no entry is encrypted, unsupported or undecodable and no two claim one path; it then holds every file in order and every unusable name; otherwise it fails with the first problem. |
| Scan.ScannedPathsAreDistinct | src/archive.rs:282-347 | After a successful scan the files are in archive order, their paths are pairwise distinct, and no stored size exceeds the directory offset. |
| Scan.FoundWhereClaimed | src/archive.rs:320-345 | An entry is listed under a path exactly where its checked name is that path. |
| Scan.ScanArchive | src/archive.rs:289-347 | With names checked as the archive's are: the scan succeeds exactly when every name decodes, no entry is encrypted or unsupported, and no two lead to one path; it then lists exactly the entries that have a path, in order, each with its declared size and its stored size cut to the directory offset, and every path lies below the root; otherwise it fails with the error of the first entry with which something is wrong. |
| Scan.UnusableAreKept | src/archive.rs:325-338 | Every name that can be no path is put aside, in archive order, with the reason. |
| Calendar.CountsMonthLengths | src/datetime.rs:220-247 | `days_from_civil` equals the sum of whole years and month lengths since 1970-01-01, for every valid date of every year. |
| Calendar.TomorrowIsOneMore | src/datetime.rs:220-247 | The count is 0 at the epoch and one more on the day that month lengths make the next, across every month, year and century. |
| Calendar.CountIsStrictlyIncreasing | src/datetime.rs:236-247 | Dates are ordered exactly as their counts are, and two dates with one count are one date. |
| Calendar.EveryDayHasADate | src/datetime.rs:236-247 | Every whole number is the count of exactly one valid date. |
| DateGrammar.ParseIsTheGrammar | src/datetime.rs:68-217 | `parse` accepts exactly the texts of a declarative grammar of spellings, and reads each as the instant that the spelling names. |
| DateGrammar.SpellingIsRead | src/datetime.rs:68-217 | Every valid spelling (padding, truncated dates, T, t or space, seconds and fractions, all offset forms) is read as days*86400 + time of day - 60*offset with its nanoseconds, the offset positive for a plus sign. |
| DateGrammar.ReadTextIsSpelled | src/datetime.rs:68-217 | Every text that is read is the print of some valid spelling, padding included. |
| DateGrammar.StampIsRead | src/datetime.rs:68-217 | Every date of the years 1 to 9999, time of day to the nanosecond and offset up to 23:59 is read back from its full timestamp, as the number written out: days*86400 + hours*3600 + minutes*60 + seconds - 60*offset. |
| Datetime.Nanoseconds | src/datetime.rs:201-217 | The digit loop computes the scaled and cut fraction, and the result is below a thousand million. |
| DateGrammar.ShortFractionIsScaled | src/datetime.rs:201-217 | A fraction of at most nine digits is scaled to nanoseconds exactly. |
| DateGrammar.LongFractionIsCut | src/datetime.rs:201-217 | A longer fraction is rounded down: its value divided by the power of ten of the digits cut. |
| Href.PercentDecode | src/href.rs:79-101 | The decoding loop computes the function of its bytes that the round trip below is about. |
| Href.UnescapeEscape | src/href.rs:79-101 | Decoding the percent-escape of any bytes gives the bytes back. |
| Href.InvalidEscapesAreKeptExactlyWhen | src/href.rs:68-101 | The decoder agrees with one that takes only `%` and two hex digits for an escape, and leaves every other `%` alone, exactly on the texts where no `%+` stands before a hex digit; on the others its result is shorter. |
| Href.SignsShorten | src/href.rs:87-94 | Each such sign costs the decoded text two characters against that decoder. |
| Href.SignIsDecoded | src/href.rs:87-94 | A plus sign counts as part of an escape, for `from_str_radix` takes a sign: `%+` and a hex digit gives the byte that the digit alone spells, where two-digit decoding keeps all three characters. |
| Href.Normalize | src/href.rs:166-207 | The push and pop loop computes the walk over the segments, with every error case in its order. |
| DotSegments.TraversalExactlyWhen | src/href.rs:166-207 | A path that is otherwise in order is refused as a traversal exactly when some prefix of its segments has more `..` than the base has segments plus ordinary names. |
| DotSegments.WalkLeavesSurvivors | src/href.rs:184-200 | What the stack leaves is what an independent right-to-left reading leaves: every ordinary segment that no later `..` takes away. |
| DotSegments.NormalizedSegments | src/href.rs:166-207 | A normalized path consists of ordinary segments only: none is empty, `.` or `..`, or holds a separator or NUL. |
| DotSegments.ParentIsValidBase | src/href.rs:107-207 | The directory of a normalized path is again a valid base. |
| DotSegments.RenormalizingChangesNothing | src/href.rs:166-207 | Normalizing a result again returns it unchanged, exactly when it is at most 1023 bytes, and is refused as too long otherwise. |
| DotSegments.NormalizedExactlyWhen | src/href.rs:166-207 | What normalizing comes to for every path: the first check that refuses it, with its error; a traversal; or the names that survive, joined, of which there must be one. |
| DotSegments.AbsoluteExactlyWhen | src/href.rs:120-138 | An href is remote exactly when it starts with a scheme of two characters or more, a letter first, and a colon. |
| DotSegments.HrefIsItsPath | src/href.rs:144-162 | An href that is neither remote nor longer than 1024 bytes is its path before the fragment, decoded and normalized, or that path's error. |
| Manifest.ChapterSource | src/extract.rs:1049-1096 | The loop that grows the fallback chain and searches it returns the source that the lemma below describes. |
| Manifest.SourcePrefersMarkup | src/extract.rs:1055-1096 | A chapter is read from the first markup of the chain that the archive holds, else from the first link it holds, and has no source only when it holds none. |
| Manifest.ChainIsSimple | src/extract.rs:1072-1087 | The fallback chain starts at the item, follows fallbacks, repeats no item, and ends at 16 links or at the first that has no fallback, or one that names no item or an earlier link. |
| Manifest.ResolveSpine | src/extract.rs:621-679 | Every itemref resolves to its chapter in order, or the first that cannot decides the error. |
| Manifest.ItemrefIsResolved | src/extract.rs:635-679 | An itemref is a chapter when the first item with its id has a source in its fallback chain that is not obfuscated; an obfuscated source is not implemented; an argument is invalid when there is no such item or the archive holds no link of the chain. |
| Manifest.PlanResources | src/extract.rs:753-849 | The loop over the manifest, the sort and the removal of neighbours compute the planned resources and the count of skipped items. |
| Manifest.PlanIsExact | src/extract.rs:753-849 | The plan holds one resource for each file that an eligible item names, under the first such item, strictly increasing by archive entry, and no file that is also a chapter. |
| Manifest.PlannedExactlyWhen | src/extract.rs:767-849 | A file is planned under an item exactly when that item is in the archive, usable, selected, no archive and not obfuscated, no item before it that names the file is, and no chapter is read from the file. |
| Manifest.FatesOfOneFile | src/extract.rs:767-849 | The items that name one file agree on how it goes out: as a chapter exactly when one of them is a chapter's source, and then none is planned; as a resource exactly when one is planned; not at all exactly when all are skipped. |
| Extraction.Preread.Read | src/extract.rs:274-288 | A read returns the entry's content, from the cache if it is there, and inflates it against the budget exactly when it is not. |
| Extraction.Preread.Take | src/extract.rs:295-298 | Taking an entry returns what plain reading would, and empties its place. |
| Extraction.NavigationPass | src/extract.rs:856-890 | The navigation pass makes the reads and sends the event that the book and options determine, keeps the entry exactly when the walk will send it, and ends the call when the client is gone. |
| Extraction.OverlayPass | src/extract.rs:892-945 | The overlay pass makes each read that is still due, sends cues in order, and keeps the bytes that a later overlay or the walk still needs. |
| Extraction.Walk | src/extract.rs:947-1031 | The merge of spine order and archive order sends exactly the specified events from any cache the earlier passes left, counts them by kind as it sends them, and empties the cache; what the events carry is stated by the rows on `EventContents`. |
| Extraction.Extract | src/extract.rs:753-1041 | A whole call makes exactly the reads of the plan, in order, and fails exactly at the first that cannot be granted, or when the client takes no more events; when all reads can be granted it succeeds exactly when the client takes the whole stream and the report. It sends that stream and report, or a beginning of it. |
| Extraction.Prepare | src/extract.rs:596-849 | Settling a book gives the resolved spine, the exact plan, the navigation source and the overlay links, before anything is inflated; the first itemref that is no chapter decides the error. |
| EventContents.ChaptersCarryTheirFiles | src/extract.rs:952-1016 | In the stream of a settled book the chapter event after k others carries index k, its idref and path, the whole content of the file it is read from, the overlay of its source or else of its spine item, and the spine item's path exactly when it is a fallback for one that has a path. |
| EventContents.ResourcesCarryTheirFiles | src/extract.rs:1220-1246 | The resource event after q others carries the path, id and overlay of the q-th planned item and the whole content of its file. |
| EventContents.NavigationIsChosen | src/extract.rs:1112-1142 | The navigation document is the first item with that property if the archive holds it, or else the item the spine names, as an NCX, if the archive holds that one, or else none. |
| EventContents.OutlineIsSentFirst | src/extract.rs:860-890 | A table of contents that is not empty is sent once, before all else, under the path of its document and with its dialect; an empty one is not sent. |
| EventContents.NarrationIsSent | src/extract.rs:892-945 | The overlay events are, in manifest order, one for each item whose overlay is usable, in the archive and not empty, with the paths of both and its own cues. |
| EventContents.NarrationComesFirst | src/extract.rs:851-855 | No overlay or navigation event comes after a chapter or a resource. |
| EventContents.ReportSays | src/extract.rs:1033-1041 | The report gives the bytes and entries of the budget, and as skipped the number of items that are no chapter's source, may not go out, and share no file with a chapter. |
| Interleaving.EachIsSentOnceInOrder | src/extract.rs:947-1031 | Chapters come out as spine indices 0 to n in order, and every planned resource once in archive order. |
| Interleaving.ResourcePrecedesChapterExactlyWhen | src/extract.rs:954-966 | A resource is sent before a chapter exactly when that chapter or an earlier one has a larger archive entry. |
| ReadAhead.InflationsAccountedFor | src/extract.rs:839-1031 | The entries inflated by a call are exactly those the walk sends, the overlays it does not send, and a navigation document it does not send. |
| ReadAhead.NothingIsLeftOver | src/extract.rs:250-298 | The cache is empty at the end of every walk, whatever the book and the options. |
| ReadAhead.FatesAgreeWithTheWalk | src/extract.rs:753-1031 | The walk sends a file once for each place in the spine that is read from it, or else once when some item that names it is planned, and never exactly when every such item is skipped. |
| ReadAhead.AtMostOnceExactlyWhen | src/extract.rs:839-1031 | No entry is inflated twice exactly when the spine names no file twice and the navigation document is not one that the walk skips and an overlay link uses. |
| Rereading.RepeatedIdrefIsReadTwice | src/extract.rs:635-679 | Every book whose package names one idref twice inflates that chapter twice, whatever the options. |
| Rereading.UnsentNavigationIsReadTwice | src/extract.rs:856-945 | A navigation document that the walk will not send and an overlay link uses is inflated by both passes. |
| Rereading.MarkupNavigationIsSent | src/extract.rs:346-375 | A navigation document in chapter markup is always sent, under all options, unless its name is an archive's or it is listed as obfuscated; so only then, or in another media type, can it be inflated twice. |
| Rereading.BookWithARepeat | src/extract.rs:596-679 | A manifest, classified as the code does, and a spine that settle to such a book with its one chapter named twice. |
| Rereading.BookWithNarratedNavigation | src/extract.rs:596-945 | A manifest, classified as the code does, and a spine that settle to a book which names no file twice and yet inflates its navigation document twice: a SMIL file that is also the chapter's overlay. |
| ReadAhead.CostOfTheOutline | src/extract.rs:856-890 | Reading the navigation document costs its own inflation when the walk will not send it, and nothing otherwise. |
| ReadAhead.ReadingAheadCannotFail | src/extract.rs:856-890 | With honest headers and a navigation document that the walk sends, reading it ahead never changes whether the call succeeds. |
| Guarantees.ReadAheadIsInvisible | src/extract.rs:250-298 | Two successful calls that differ only in reading the navigation document send the same chapter and resource events with the same bytes and end with the same counters, when the walk sends that document. |
| Guarantees.ReportCountsWhatWasSent | src/extract.rs:949-1041 | The counters that the walk carried into the status report equal the chapter and resource events of the whole stream, and these are one for each spine position and each planned resource. |
| Nav.ParseNav | src/nav.rs:201-310 | The event loop over depth, stack, label and counters computes the reader's state step by step, then unwinds and renumbers; where its links lead is stated by the rows on `Links`. |
| Nav.ParseNcx | src/nav.rs:318-415 | The same for the NCX, which drops what is open at the end. |
| Nav.TocKindExactlyWhen | src/nav.rs:240-246 | A list is read as a table of contents exactly when its type is empty or has `toc` among its words, whatever whitespace is between them. |
| Nav.FlattenAll | src/nav.rs:96-109 | The recursive push gives every entry depth-first in document order. |
| NavSafety.FlattenedInPreorder | src/nav.rs:96-109 | In the flattened list an entry stands behind everything in the entries before it and right before everything below it. |
| NavSafety.NavStackIsOrdered | src/nav.rs:215-286 | On every event sequence, unmatched ends included: open depths strictly increase and lie between the list's depth and the current one, at most 32 are open, none outside the list, and at most 5000 entries count. |
| NavSafety.NavTocIsSound | src/nav.rs:201-310 | On every event sequence the result has at most 32 levels and 5032 entries, each with a collapsed label that is not empty and its distance from the top as depth. |
| NavSafety.NcxTocIsSound | src/nav.rs:318-415 | On every event sequence the NCX stack is ordered and at most 32 deep, and the result has at most 32 levels and 5000 entries, labelled and numbered. |
| NavSafety.TruncatedDocuments | src/nav.rs:288-310 | Of a document that breaks off, a navigation document keeps what is still open, nested as it was, an entry without a label dropped with all below it; an NCX keeps the finished entries alone. |
| NcxMap.OutlivesExactlyWhen | src/nav.rs:349-408 | On every event sequence, an entry is at some moment open outside the NCX map exactly when a map starts while an entry is open and a later event leads back above that start. |
| NcxMap.NothingOutlivesAPlainMap | src/nav.rs:318-415 | As long as no map starts while an entry is open, an NCX keeps what a navigation document always keeps: nothing is open outside the map, and all that is open lies below it. |
| NcxMap.NcxEntryOpenOutsideTheMap | src/nav.rs:349-408 | The shortest such input: a map, an entry, and in it a map that ends. |
| NavMarkup.NeutralRun | src/nav.rs:233-286 | Balanced markup of elements that neither reader knows leaves nothing but its text, and that only inside a label. |
| NavMeaning.ForestRun | src/nav.rs:201-415 | Reading the markup of any forest, at any level and from any state between two entries, adds exactly the recursive meaning of the forest. |
| NavRoundTrip.ReadingIsMeaning | src/nav.rs:201-434 | For every forest, of any size and depth, between any other content, either reader returns its recursive meaning: post-order counting against 5000, nothing past level 32, dropped entries taking their subtrees along. |
| NavRoundTrip.RoundTripExactlyWithinLimits | src/nav.rs:41-56 | The printed forest is read back exactly (labels, resolved links, depths) if and only if it has at most 32 levels and 5000 entries, in both dialects. |
| NavRoundTrip.BookIsReadBackExactlyWithinLimits | src/nav.rs:117-138 | The round trip with the readers' own resolution of links, for a table of contents at any path of the archive. |
| Links.LinksAreReadWithTheirFragments | src/nav.rs:112-134 | In a table of contents within the limits, anywhere in the archive, an entry at any depth that links to a plain file name and a fragment is read as that file beside the document with the fragment behind it; without a fragment as the file; without a link as nothing. |
| Links.FragmentIsPutBack | src/nav.rs:118-134 | A link is cut at its first mark; the fragment is put back behind what the path leads to, an empty one adds nothing, and one behind a path that is empty, remote or unusable is lost with it. |
| Links.FileInTheSameDirectory | src/nav.rs:118-134 | From `dir/file`, a plain name and a fragment lead to `dir/name#fragment`. |
| Links.BareFragment | src/nav.rs:123-127 | A link that is only a fragment leads nowhere. |
| Links.FragmentsTellApart | src/nav.rs:112-117 | Two links into one file with different fragments are read differently. |
| NavRoundTrip.DialectsAgreeExactlyWhen | src/nav.rs:201-415 | The two dialects of one forest, of any size and depth, read the same exactly when every kept entry at level 32 has, as the last link at or below it, one that leads where its own does. |
| NavRoundTrip.DialectsAgree | src/nav.rs:312-434 | Up to 32 levels, and for any number of entries, the two dialects of one forest give the same table of contents. |
| NavRoundTrip.CrowdedEntryIsLost | src/nav.rs:278-283 | A forest under one top entry, of any depth, gives an empty table of contents exactly when more than 5000 of its entries stand above the 33rd level: the counter closes children first. |
| NavRoundTrip.HeadingOverMany | src/nav.rs:278-283 | A heading over n entries, on two levels and with links resolved as the readers do, is read as nothing in either dialect exactly from n = 5000 on. |
| NavRoundTrip.DialectsPartAtLevel33 | src/nav.rs:337-377 | A forest of 33 levels that the two dialects read differently, with its links resolved as the readers do: in an NCX the innermost kept entry takes the link of the dropped one. |
| Whitespace.CollapseIsIdempotent | src/nav.rs:156-159 | A collapsed label is left alone by collapsing it again. |
| Whitespace.LabelIsItsWords | src/nav.rs:156-159 | A label is its words with one space between them, whatever whitespace stands before, between and after them. |
| DocumentFold.DocumentFold.Consume | src/document_fold.rs:221-241 | After each event the document, the chapter map and everything held are those that the events so far determine by position, although links are made by parsing reference strings; what each event adds is stated by the rows on `FoldMeaning`. |
| FoldMeaning.PicturesAreDrawn | src/document_fold.rs:221-241 | The pictures are, in order, one for each image resource and each chapter of an image media type, with that event's path, id and media type, under the body or its own chapter's group, and the cover exactly when the last information event before it names that path; no other event makes one. |
| FoldMeaning.GroupsAreChapters | src/document_fold.rs:584-646 | The groups are, in order, one for each chapter event, named by its path, under the body, with its own picture if it is an image, and with the cues of the last overlay of its path exactly when it is the last chapter of that path. |
| FoldMeaning.BodyIsInOrder | src/document_fold.rs:584-699 | The body lists, in the order of the events, each chapter's group and each image resource's picture and nothing else. |
| FoldMeaning.OutlineIsOfTheLast | src/document_fold.rs:231-233 | The outline has the titles of the last table of contents of the run, in preorder, and is empty when there is none. |
| FoldMeaning.ImageExactlyWhen | src/document_fold.rs:778-782 | A media type is an image's exactly when, leading whitespace aside, it starts with `image/` in any case. |
| DocumentFold.DocumentFold.Take | src/document_fold.rs:253-295 | What is taken is the document of the events since the last one was taken, with outline and cues; an empty fold is left behind. |
| DocumentFold.Play | src/document_fold.rs:221-259 | Over any sequence of events and takes, every document is built from exactly the events between two takes. |
| DocumentFold.DocumentFold.AddChapter | src/document_fold.rs:584-646 | A chapter becomes a group listed by the body, with its own picture when it is an image, and the map then names the last chapter of each path. |
| DocumentFold.DocumentFold.AddPicture | src/document_fold.rs:663-699 | A picture is listed by the group that its parent reference names, which is its owner. |
| DocumentFold.NameIsLocated | src/document_fold.rs:744-761 | The reference formatted for group k is parsed back to group k. |
| DocumentFold.DocumentFold.ProjectOverlays | src/document_fold.rs:310-354 | Each chapter group gets the cues of the last overlay held for it. |
| DocumentFold.WalkOutline | src/document_fold.rs:266-295 | The recursive walk appends the depth-first projection of an entry and all below it. |
| DocumentTree.EveryDocumentIsATree | src/document_fold.rs:221-259 | For every sequence of events: references are dense and distinct, every item is listed exactly once and by its own parent, every item is reached from the body in at most two steps, and the integrity check finds nothing. |
| DocumentTree.OutlineIsProjection | src/document_fold.rs:266-295 | The outline is the preorder walk of the last navigation event; a target is the last group whose name is the link cut at `#`, and is missing exactly when the link is empty or no chapter of the run has that name, in any arrival order. |
| DocumentTree.OutlineAgreesWithFlatten | src/document_fold.rs:266-295 | Entry by entry, the outline agrees with the flattened navigation that was read, sent through 32-bit depths. |
| DocumentTree.FlattenOnWire | src/extract.rs:1174-1181 | Sending a table of contents and flattening it commute: the flattened sent tree is the flattened tree with each entry sent. |
| DocumentTree.TargetExactlyWhen | src/document_fold.rs:972-983 | A link leads to a group exactly when, cut at its fragment, it is the group's name and no later group has that name. |
| DocumentTree.SomeLinkLeadsExactlyWhen | src/document_fold.rs:972-983 | The chapters that some link can lead to are exactly those whose path holds no `#`, each as the last of its name. |
| DocumentTree.OwnPathLeadsExactlyWhen | src/document_fold.rs:972-983 | An outline entry whose link is a chapter's own path points at that chapter exactly when the path holds no `#`. |
| DocumentTree.MarkedChapterIsNoTarget | src/document_fold.rs:972-983 | A chapter whose archive path contains `#` is never the target of an outline entry. |
| Delivery.DocumentOfACall | src/extract.rs:171-196 | The Document of a successful call has one group for each spine position, in order, named by its chapter's path, and its outline is the call's own table of contents, with no target exactly where the link is empty or leads to no chapter of the spine. |
| Delivery.MarkedChapterLosesItsLink | src/href.rs:150-162 | A book that is settled from a manifest with the chapter `a#b` and a navigation document that links to it as `a%23b`: the link is read as the chapter's own path, and in the Document of the call's own events the outline entry has no target. |
| Integrity.IntegrityErrors | src/document_fold.rs:1012-1059 | The check reports a defect exactly when the document has it, for each of its nine kinds, and reports nothing exactly for a sound document. |
| Integrity.EveryItemIsLookedAt | src/document_fold.rs:1012-1059 | The check looks at both roots and at every item of all four arenas, and at nothing else. |
| Integrity.Inventory.Record | src/document_fold.rs:1106-1126 | Recording an item adds exactly its name, its links and its own defects. |
| Integrity.Inventory.Finish | src/document_fold.rs:1136-1155 | Resolving the links finds exactly the dangling and the unlisted ones. |
| Integrity.CleanExactlyWhenSound | src/document_fold.rs:990-1155 | No defect exists exactly when both roots stand under their own names, every reference is non-empty and used once, every child resolves, and every item has a parent that lists it. |
| Integrity.CleanNeedNotBeATree | src/document_fold.rs:1136-1155 | A clean document whose item is listed twice, and by an item that is not its parent: the check does not ask a listed child to point back. |
| UploadBudget.EveryRunIsConserved | src/service.rs:340-433 | Over every interleaving of any number of calls: free plus held permits is the budget, free plus taken slots is the slots, each call holds exactly ceil(capacity/1024) permits, and length <= capacity <= its ceiling. |
| UploadBudget.BufferedStaysWithinBudget | src/service.rs:121-143 | All buffers together never pass the budget rounded up to a KiB, and at most the configured number of calls parse. |
| UploadBudget.EveryExitReturnsItsShare | src/service.rs:278-285 | Once every call has ended, in whichever way, the whole budget and every slot is free. |
| UploadBudget.RefusedExactlyWhen | src/service.rs:404-433 | A call is refused by the budget exactly when what it needs and what others hold exceed the budget, or one request exceeds a 32-bit count. |
| UploadBudget.NeverRefusedAlone | src/service.rs:122-143 | When no other call holds anything, a call is refused exactly when it must ask for more permits at once than a 32-bit count can say. |
| UploadBudget.BudgetCoversBoth | src/service.rs:121-140 | A permit is a KiB, and the server starts with exactly as many as cover both the configured buffer limit and one upload of the largest size. |
| UploadBudget.CapIsTheSmaller | src/limits.rs:183-193 | A call may send the server's limit, or the whole MiB it asked for when that is less. |
| UploadBudget.FrameIsJudged | src/service.rs:359-391 | A chunk over the frame limit, or past the call's ceiling, ends the call with its share given back; any other is taken in full or asks once more for exactly what it needs. |
| UploadBudget.GrowthIsGeometric | src/service.rs:376-380 | A buffer that grows holds what is needed, stays under its ceiling, and at least doubles unless it reaches it. |
| Upload.Server.ReserveUpload | src/service.rs:404-433 | A share grows to cover a capacity exactly when the semaphore grants the difference; a refusal changes nothing. |
| Upload.Server.Accept | src/service.rs:373-391 | One chunk with geometric growth, the fallback to exactly what is needed and the release on refusal is one or two steps of the protocol, and finds room exactly when all bytes so far fit into what is free and what the call holds. |
| Upload.Server.Grow | src/service.rs:376-388 | The doubled reservation is tried first, then the exact one; a refusal gives back everything held. |
| Upload.AdmitsExactlyWhen | src/service.rs:373-388 | However far the buffer has grown, doubling first and exact growth second together refuse a chunk exactly when the bytes so far, in units, are more than what is free and what the call holds. |
| Upload.ChunksInOrder | src/service.rs:391-396 | What was received is every chunk in order, each behind the bytes of all before it. |
| Upload.VerdictIsOnTheFirst | src/service.rs:347-372 | The frames are refused for the first that repeats the options, breaks off, is over the frame limit, or takes the bytes so far past the ceiling, and for none exactly when none does. |
| Upload.OutcomeIsOnTheFirst | src/service.rs:347-391 | With the budget counted in, the outcome is on the first frame that breaks a rule or takes the bytes so far past 1024 times the units there are. |
| Upload.Server.Receive | src/service.rs:340-396 | The receiving loop returns all chunks in order with the share they hold, or the first thing wrong with the frames, or a refusal by the budget, which comes exactly at the first chunk that takes the bytes so far past what was free; a failed call leaves nothing held, and no other call changes. |
| Encryption.ParseEncryption | src/opf.rs:443-504 | The event loop over the stack of open records computes the state that the lemmas below describe. |
| Encryption.ReaderFindsTheRecords | src/opf.rs:443-504 | On the events of any balanced tree the result is the post-order list of all EncryptedData and EncryptedKey elements, each with the first non-empty Algorithm and URI under it but outside any nested record. |
| Encryption.NoRecordIsLost | src/opf.rs:430-504 | As many records are found as the tree has, however they are nested. |
| PackageParser.ParsePackage | src/opf.rs:883-917 | The loop over the events, with its three ways to fail, computes the package of the document; what that is is stated by the next rows. |
| PackageDocument.DocumentIsParsed | src/opf.rs:587-645 | Of a printed package document the parser gives the version and unique identifier, the items of its manifests and the itemrefs of its spines in document order, each field from its own attribute, properties split on whitespace, linear unless exactly `no`, the `toc` of the last spine, the cover, and the entries; elements outside their section count for nothing, and a document without an itemref is refused. |
| PackageDocument.RootMustBePackage | src/opf.rs:587-604 | A document whose first element is not the package is refused, whatever follows. |
| MetadataFields.ElementSays | src/opf.rs:654-758 | A metadata element is an entry with its own attributes if it is one of the fifteen of the Dublin Core; a `meta` names the cover, or is an entry of its property, or a refinement of what it names behind any marks; anything else says nothing. |
| MetadataFields.AttributeIsFirst | src/opf.rs:281-301 | An attribute is read by its local name, namespace declarations aside; the first one counts, and a missing one is empty. |
| MetadataFields.CreditedFields | src/opf.rs:814-845 | Creators and contributors are every entry of the element, in order, with the first refinement of each property. |
| MetadataFields.TitleFields | src/opf.rs:826-833 | Titles are every title entry, in order, with its type. |
| MetadataFields.MainTitleIsChosen | src/opf.rs:834-842 | The title is the first that is marked as the main one, or else the first, or nothing. |
| MetadataFields.RepeatedFields | src/opf.rs:846-857 | Languages, subjects and identifiers are every entry of the element, in order. |
| MetadataFields.SingleFields | src/opf.rs:848-868 | Each of the ten single fields, and the language, is the first entry of its element, or nothing. |
| PackageParser.PackageParser.Open | src/opf.rs:587-645 | A start tag moves the section, depth, manifest, spine and collected element as specified, and only a wrong root fails. |
| PackageParser.PackageParser.Close | src/opf.rs:716-730 | An end tag files the element it ends and leaves the section it ends. |
| PackageParser.PackageParser.FinishMetadata | src/opf.rs:761-774 | The loop over the held refinements gives each to the first entry with the identifier it names. |
| Refinements.AttachedByName | src/opf.rs:761-774 | Every entry ends with its own refinements followed by exactly those that name it, in order, and none if an earlier entry has its identifier. |
| Refinements.StrayRefinementChangesNothing | src/opf.rs:761-774 | A refinement that names no entry changes nothing, wherever it stands. |
| Refinements.OrderByNameIsAll | src/opf.rs:756-774 | Only the order of the refinements of each identifier matters. |
| Refinements.BlockRun | src/opf.rs:654-758 | A printed metadata block files its entries, refinements and cover, each in order, and leaves nothing else behind; a value is the trimmed text of its element, looking through whatever markup divides it. |
| Refinements.InterleavingDoesNotMatter | src/opf.rs:654-873 | Two metadata blocks with the same entries and, per identifier, the same refinements, interleaved in any two ways inside any one document, give the same package and the same typed fields. |
| Refinements.StrayMetaChangesNothing | src/opf.rs:654-774 | Two documents that differ by one refining element, which names no entry of the whole document, give the same package, wherever the element stands. |
| Refinements.FiledEntries | src/opf.rs:654-758 | The entries of a printed block come, in order, after those held before it, and stay there to the end of the document. |
| Refinements.AttributesOutrankRefiningElements | src/opf.rs:654-797 | In the package of any document with a metadata block, whom an element of that block credits is as its EPUB 2 attributes say, and only where it has no such attribute as the refining elements say that the whole document gives to its entry. |

## Left out

- ZIP decoding, deflate and XML tokenizing: library code. Entries and events are inputs; that the ZIP reader keeps the last record of a raw name is a stated assumption of the directory results.
- The checks made while opening an archive before the walk over its directory (`src/archive.rs:137-172`: signature count, declared entry count, an empty upload): single comparisons.
- The reads made before the plan (encryption, mimetype, container and package documents, `src/extract.rs:478-595`) do not go through the read-ahead cache; the model starts from an arbitrary budget after them.
- PackageParser.ParsePackage: a stream that the tokenizer finds malformed and a DOCTYPE that declares entities also fail the source; the model starts from events that are neither. The same holds of the encryption parser; the navigation readers keep what came before.
- References such as `&amp;` inside labels and metadata text, which the navigation readers skip: labels and values are plain text pieces among neutral markup.
- `Sink`: the waiting on a client that is behind. A client takes some number of events, whichever, and then none; the Document event, sent just before the report when it was asked for, is not counted among them.
- How a media type classifies, nested-archive detection, warnings and their cap: whether an item is markup, nested and selected is given per item, with what the classification guarantees stated by `Manifest.Classified` where an input is shown.
- The lookup of a manifest href among the entries (`src/extract.rs:414-443`) and the set of obfuscated entries: both are given per item. Empty identifiers are treated as the code treats them.
- Cue times, overlay durations and the narration length: floating point. An overlay's cues are an opaque value.
- Metadata copied into the Document (`info`, `source_meta`, credits, languages, collector attribution) and the archive hash: field by field copying.
- The repeated string fields of the ten first-value metadata elements are kept as one list.
- Whitespace, trimming and case folding are those of ASCII text; lossy UTF-8 decoding after percent-decoding is a parameter.
- Machine words are 64 bits wide; counters that saturate at 32 bits are modelled where they are sent, and lengths of vectors are assumed to fit (`DocumentFold.DocumentFold.Consume` asks that fewer than 2^64 events were consumed).
- The upload protocol leaves out clocks, channels and the panic supervisor beyond the permits they hold; that `reserve_exact` allocates exactly what is asked is assumed, and the buffer freed by a reallocation is not counted.
- Upload.Server.Receive: one call's loop with no other call stepping in between; interference is the subject of `UploadBudget`, in which a doubled reservation and its retry are separate steps. When the budget refuses is said for chunks of at most 4 TiB, whose permits fit a 32-bit count.
- An XML attribute value is taken as it stands, without entity or whitespace normalization.
