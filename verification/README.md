# Imageboard: verified model

A Dafny model of the parts of the imageboard whose correctness spans more than one function, with
proofs over every input, every run or every reachable state. `dafny verify dfyconfig.toml` checks all
of it.

The files follow the system's components.

* **Lexical vectors.** `Lexical` defines the vector of a set of tags and comments: words, raw
  frequencies, the first 128 terms by frequency and name, normalization; `LexicalTerms` says of the texts
  themselves which terms it holds. `Vectorizer` is the vectorizer's loops, proved to compute it. `Sums` and
  `Ranking` hold finite sums and orderings.
* **The durable index.** `Tables` and `Triggers` are the database rows, the writes an annotation
  transaction may make, and the triggers that mark jobs dirty. `EmbeddingQueue` states each worker
  transaction as a function of the tables; `EmbeddingStore` is the same transactions and trigger
  functions as they run, statement by statement. `EmbeddingProtocol` interleaves any number of workers,
  annotators, reconfigurations, clock ticks and crashes; `EmbeddingWorker` is the worker loop,
  and `EmbeddingLiveness` any number of workers on an unending schedule; `Discovery` is the similarity
  search over the stored vectors.
* **The search language.** `SearchSyntax` has the scanner, the grammar and the recursive descent on
  tokens; `SearchBytes` says which bytes end words, tags and quotes, and what each is accepted as;
  `SearchParser` is the parser with its cursor; `SearchPrinter` prints trees and reads them back;
  `SearchCanonical` shows that prints have the fewest parentheses, and which accepted trees have one.
  `SqlConditions` gives the compiled SQL condition a reader and a meaning; `SqlCompiler` is the compiler
  and the listing handler's query building. `LikePatterns` is the SQL LIKE operator.
* **The filesystem index worker.** `FileTree` is the tree and what a walk finds in it; `IndexCatalog`
  the catalog rows, upserts, deletion and reconciliation; `IndexWorker` the batched scan.
* **Accounts.** `Accounts` and `AccountStore` are account changes under the account lock;
  `Authentication` is the login check with its cache of password proofs.
* **Comments.** `Threads` is the reply-depth walk under concurrent posts and deletions;
  `CommentHistory` and `CommentCursor` are keyset paging and its encoded cursor, `CursorTexts` says exactly
  which cursors are accepted, and `Calendar` counts the instants comments are ordered by.

Things the code takes from elsewhere are parameters, so the theorems hold for any choice: character
tables, trimming and case folding, stop words, the logarithm (strictly increasing, zero at zero) and
square root (given by its square), the keyed digest (collision free), the password check, the
vector's fingerprint (it stands for the tag weight it is computed from). Weights are reals. A database
transaction is one atomic step, which the row locks of the original justify; statements that the
original runs outside a transaction are separate steps.

Five promises hold only under a condition, which is stated exactly:

* Wrapping a search term in `%` finds containment exactly when the term has no `%`, `_` or backslash
  (`LikePatterns.ContainingIffPlain`); `SqlConditions.PercentFinds` shows a query that meets the failure.
* The stale-row deletion's scope is the job's subtree exactly when its root has no `%` or `_`
  (`LikePatterns.ScopeIsSubtreeIff`); `IndexCatalog.WildcardRootOverreaches` shows a row outside the
  subtree being deleted.
* A complete scan reconciles its subtree exactly when no row there already carries the job's stamp
  without being a file found (`IndexCatalog.ReconcilesIff`); `IndexCatalog.VanishedFileStays` shows one
  that does.
* A comment cursor leads back to its position exactly when the year has four digits
  (`CommentCursor.CursorRoundTrip`).
* Cache keys separate (name, password) pairs exactly for names without NUL
  (`Authentication.KeyInjectiveIff`); stored names never hold one.

## Model

| member | source | states |
|---|---|---|
| `Lexical.VectorOrderFree` | go_api/internal/embedding/vector.go:58-104 | the vector depends only on the multisets of tags and comments, not on their order or on map iteration order |
| `Lexical.NormalizedGeometry` | go_api/internal/embedding/vector.go:88-103 | the normalized map is empty or has squared weights summing to 1, every weight in (0,1], at most 128 terms |
| `Lexical.VectorGeometry` | go_api/internal/embedding/vector.go:58-104 | for every source and positive tag weight: empty or of unit length, weights in (0,1], at most 128 terms of at most 130 bytes |
| `Lexical.KeptTermsAreBest` | go_api/internal/embedding/vector.go:77-90 | a term is kept exactly when fewer than 128 terms precede it by (raw frequency descending, term ascending) |
| `Lexical.EmptinessIgnoresWeight` | go_api/internal/embedding/vector.go:58-98 | whether a source has an empty vector does not depend on the positive tag weight |
| `Lexical.SimilarityAtMostOne` | go_api/internal/embedding/vector.go:91-103 | Cauchy-Schwarz: vectors of at most unit length have dot product at most 1 |
| `Lexical.SimilarityIsCloseness` | go_api/cmd/api/discovery.go:125-130 | the dot product of stored vectors is one less half their squared distance, and symmetric |
| `Lexical.TermOrderTotal` | go_api/internal/embedding/vector.go:82-87 | the sort's comparison is a strict total order |
| `LexicalTerms.WordsAreWords` | go_api/internal/embedding/vector.go:52-54 | the words of a text are exactly its maximal runs of letters and digits in lower case, in order |
| `LexicalTerms.WordFrequency` | go_api/internal/embedding/vector.go:59-76 | the raw frequency of "w:" and a word is the tag weight times its occurrences among the words of the tags plus its occurrences in comments, when it has two code points or more, at most 128 bytes and is no stop word, and zero otherwise |
| `LexicalTerms.PhraseFrequency` | go_api/internal/embedding/vector.go:67-73 | the raw frequency of "t:" and a phrase is the tag weight times the number of tags whose single-spaced words it is, when it is non-empty and at most 128 bytes, and zero otherwise |
| `LexicalTerms.PositiveFrequency` | go_api/internal/embedding/vector.go:59-76 | a term has a positive frequency exactly when some tag or comment has that word at a maximal run, long and short enough and no stop word, or some tag is that phrase |
| `LexicalTerms.VectorTerms` | go_api/internal/embedding/vector.go:58-104 | a vector holds only terms of the source's texts, and is empty exactly when they have none |
| `LexicalTerms.AllTermsKept` | go_api/internal/embedding/vector.go:88-90 | with at most 128 terms the vector holds every one |
| `LexicalTerms.NothingSaid` | go_api/internal/embedding/vector.go:60-66 | without tags the vector is empty exactly when the comments say only stop words and words too short or too long |
| `LexicalTerms.ShortestEncoding` | go_api/internal/embedding/vector.go:62 | a code point counts as many bytes as the shortest UTF-8 encoding needs |
| `LexicalTerms.TextLessAtFirstDifference` | go_api/internal/embedding/vector.go:84 | ties are broken at the first differing code point, a proper prefix coming first |
| `LexicalTerms.WeightsAreLogarithmic` | go_api/internal/embedding/vector.go:79-103 | stored weights stand to each other as the logarithms of the raw frequencies |
| `Vectorizer.CountTerms` | go_api/internal/embedding/vector.go:59-76 | the frequency loops compute, for each term, the weighted number of its occurrences in the bags of tag and comment terms |
| `Vectorizer.AddTag` | go_api/internal/embedding/vector.go:67-73 | one tag adds its words and its phrase, each with the tag weight |
| `Vectorizer.AddWords` | go_api/internal/embedding/vector.go:60-66 | one text adds its kept words with the given weight |
| `Vectorizer.Damp` | go_api/internal/embedding/vector.go:77-81 | the damping loop collects every term once and replaces frequencies by logarithms |
| `Vectorizer.SumSquares` | go_api/internal/embedding/vector.go:91-94 | the accumulator is the squared length over the kept terms |
| `Vectorizer.Scale` | go_api/internal/embedding/vector.go:99-103 | every kept term is divided by the norm, and no other term appears |
| `Vectorizer.Vectorize` | go_api/internal/embedding/vector.go:58-104 | the imperative vectorizer returns exactly the specified vector: only terms its texts have, and none only when they have none |
| `Tables.SourceFollowsFacts` | go_api/internal/embedding/worker.go:80-126 | what a worker reads depends, up to order, only on the image's links with tag names and its messages' texts; dates do not matter |
| `Tables.SourceHolds` | go_api/internal/embedding/worker.go:91-125 | the source read for an image has a comment exactly when one of its messages with that text holds a character other than a space, and a tag exactly when a link names it |
| `Tables.SourceInOrder` | go_api/internal/embedding/worker.go:91-125 | the source lists the texts of the image's non-blank messages, one for each, by date and id, and the tag names of its links, one for each, in ascending order |
| `Triggers.AbortsIff` | imageboard/migrations/versions/0001_secure_baseline.py:45-88 | a write aborts its transaction exactly when it takes a used id or would leave a foreign key, a unique tag name or a unique link broken |
| `Triggers.TargetsAreChanged` | imageboard/migrations/versions/0008_discovery_vectors.py:69-100 | each trigger marks exactly the images whose annotations its write changed |
| `Triggers.Coalescing` | imageboard/migrations/versions/0008_discovery_vectors.py:57-100 | a committed transaction with any list of writes raises each touched job's revision by exactly one, or creates it at revision 1, and leaves it pending and available at that moment with priority 1, no lease and no attempts; it leaves other jobs alone, and an aborted one leaves nothing |
| `Triggers.UntouchedFacts` | imageboard/migrations/versions/0008_discovery_vectors.py:69-100 | an image no write touched has the annotations it had |
| `Triggers.TransactionFrame` | imageboard/migrations/versions/0008_discovery_vectors.py:18-53 | annotation transactions keep the foreign keys, and touch stored vectors and the setting only by deleting images |
| `EmbeddingQueue.LeaseExcludes` | go_api/internal/embedding/worker.go:64-78 | a claimed job cannot be claimed for two minutes, counted again from each heartbeat of its holder |
| `EmbeddingQueue.BackoffDoubles` | go_api/internal/embedding/worker.go:214-220 | retry delays are 5 seconds doubling up to ten minutes |
| `EmbeddingQueue.RetryAfterBackoff` | go_api/internal/embedding/worker.go:64-78 | a failed job is claimable exactly from the end of its delay |
| `EmbeddingQueue.QueueOrder` | go_api/internal/embedding/worker.go:70-73 | higher priorities are claimed first, among equal ones the longest due, then the smaller image id |
| `EmbeddingQueue.ConfiguredIs` | go_api/internal/embedding/worker.go:28-62 | configuring the version already set leaves every job, vector and term alone and only queues annotated images without a job; another version starts every job over at its next revision |
| `EmbeddingQueue.MarkedFirst` | imageboard/migrations/versions/0008_discovery_vectors.py:57-66 | an image an annotation write touched is claimable at that moment, ahead of every image queued afterwards by a configuration |
| `EmbeddingStore.Store.MarkDirty` | imageboard/migrations/versions/0008_discovery_vectors.py:57-66 | the marking function inserts, bumps once per transaction, or does nothing for an absent image |
| `EmbeddingStore.Store.MessageChanged` | imageboard/migrations/versions/0008_discovery_vectors.py:67-79 | the message trigger marks the images of a changed row, and none for an unchanged one |
| `EmbeddingStore.Store.LinkChanged` | imageboard/migrations/versions/0008_discovery_vectors.py:80-90 | the tag-link trigger marks the old and new image of a changed link |
| `EmbeddingStore.Store.TagRenamed` | imageboard/migrations/versions/0008_discovery_vectors.py:91-100 | the rename trigger's loop marks exactly the images linked to the tag |
| `EmbeddingStore.TriggersAreTargets` | imageboard/migrations/versions/0008_discovery_vectors.py:67-90 | for each direct insert, update and delete of a message or link, the row trigger marks what the transaction model says the write marks |
| `EmbeddingStore.Store.DeleteTag` | imageboard/migrations/versions/0008_discovery_vectors.py:80-90 | deleting a tag and its links one by one, in any order, each firing the link trigger, is one tag deletion of the transaction model |
| `EmbeddingStore.Store.DeleteImage` | imageboard/migrations/versions/0008_discovery_vectors.py:57-90 | deleting an image with its rows, whose triggers find no image to mark, is one image deletion of the transaction model |
| `EmbeddingStore.Store.Configure` | go_api/internal/embedding/worker.go:28-62 | setting a version invalidates every job when the version differs, records it, and queues annotated images without a job |
| `EmbeddingStore.Store.Claim` | go_api/internal/embedding/worker.go:64-78 | claims a claimable job under a fresh token, or nothing when none is claimable: no claimable job has a higher priority, and none of the same priority was due earlier, or as early with a smaller id |
| `EmbeddingStore.Store.CollectTags` | go_api/internal/embedding/worker.go:91-107 | reads the image's tag rows, each once |
| `EmbeddingStore.Store.CollectComments` | go_api/internal/embedding/worker.go:108-125 | reads the image's non-blank messages, each once |
| `EmbeddingStore.Store.Source` | go_api/internal/embedding/worker.go:80-126 | reads the annotations exactly when revision and token are still the row's |
| `EmbeddingStore.Store.Publish` | go_api/internal/embedding/worker.go:128-180 | stores the vector exactly when token, revision, lease, status and version all still match |
| `EmbeddingStore.Store.StoreVector` | go_api/internal/embedding/worker.go:151-174 | an empty vector removes the stored one, another replaces all its terms |
| `EmbeddingStore.Store.Heartbeat` | go_api/internal/embedding/worker.go:186-205 | renews the lease exactly while the ticket owns the running row |
| `EmbeddingStore.Store.Fail` | go_api/internal/embedding/worker.go:214-220 | releases the job and schedules its retry exactly when the ticket still owns it |
| `EmbeddingProtocol.LexicalFaithful` | go_api/internal/embedding/worker.go:80-126 | reading and vectorizing ignore order and dates, which is all the protocol needs of them |
| `EmbeddingProtocol.MigrationStarts` | imageboard/migrations/versions/0008_discovery_vectors.py:102-104 | the migration, on any tables without an index, leaves an initial state of the protocol |
| `EmbeddingProtocol.InitialInv` | imageboard/migrations/versions/0008_discovery_vectors.py:102-104 | the migration's backfill establishes the protocol's invariant |
| `EmbeddingProtocol.AnnotateInv` | imageboard/migrations/versions/0008_discovery_vectors.py:57-100 | an annotation transaction keeps the invariant, whatever workers are doing |
| `EmbeddingProtocol.PublishInv` | go_api/internal/embedding/worker.go:128-180 | a publish, accepted or not, keeps the invariant |
| `EmbeddingProtocol.ConfigureInv` | go_api/internal/embedding/worker.go:28-62 | a reconfiguration keeps the invariant |
| `EmbeddingProtocol.StepInv` | go_api/internal/embedding/worker.go:28-220 | every step keeps the invariant: a snapshot equals the current annotations for as long as its revision is current |
| `EmbeddingProtocol.FreshnessOf` | go_api/internal/embedding/worker.go:80-180 | for any way of reading and encoding annotations that ignores order and dates, an accepted vector is that of the current annotations |
| `EmbeddingProtocol.Freshness` | go_api/cmd/api/discovery.go:107-110 | in every reachable state a vector the search accepts is the vector of the current annotations |
| `EmbeddingProtocol.JobTable` | imageboard/migrations/versions/0008_discovery_vectors.py:39-53 | in every reachable state leases exist exactly while running, a job is complete exactly when ready or empty, ready means a current vector, empty means none, and every annotated image has a job |
| `EmbeddingProtocol.NothingToIndex` | go_api/internal/embedding/worker.go:151-178 | an image without a job, or whose job is empty, has nothing to index at any weight |
| `EmbeddingProtocol.LostIsFenced` | go_api/internal/embedding/worker.go:128-143 | a worker whose token was replaced or whose revision was superseded is fenced |
| `EmbeddingProtocol.FencedForever` | go_api/internal/embedding/worker.go:194-220 | a fenced worker's publish, heartbeat and fail change nothing in any later state |
| `EmbeddingProtocol.ConfigureAndSnapshot` | go_api/internal/embedding/worker.go:28-90 | any positive tag weight can be configured; a worker reads its image's annotations while its ticket is current and nothing once it is lost |
| `EmbeddingProtocol.AtMostOnePublication` | go_api/internal/embedding/worker.go:128-180 | no revision of an image is ever published twice |
| `EmbeddingProtocol.PriorityInRun` | imageboard/migrations/versions/0008_discovery_vectors.py:57-66 | in every reachable state a job has priority 1 if an annotation write ever marked its image and 0 if it was only backfilled, so changed images are claimed before backfilled ones |
| `EmbeddingWorker.Process` | go_api/internal/embedding/worker.go:182-212 | a processed job's vector is that of the annotations read, published under the ticket |
| `EmbeddingWorker.Run` | go_api/internal/embedding/worker.go:222-255 | one worker by itself, with finitely many failing attempts wherever they fall: its loop runs out of jobs, and every annotated image then has its right vector, or is empty and vectorizes to nothing |
| `EmbeddingLiveness.BusyPublishes` | go_api/internal/embedding/worker.go:182-212 | a worker with a job comes, whatever the others do, to the publish that completes it |
| `EmbeddingLiveness.SomebodyWorks` | go_api/internal/embedding/worker.go:222-237 | while a job is unfinished, waiting for its retry or for a lease to run out included, sooner or later a worker has a job |
| `EmbeddingLiveness.QueueDrains` | go_api/internal/embedding/worker.go:64-255 | any number of workers, polling forever under any schedule that keeps stepping each of them: once annotations and settings stay put and attempts stop failing, from some moment on every annotated image has its right vector, or is empty and vectorizes to nothing |
| `Discovery.IndexIsBruteForce` | go_api/cmd/api/discovery.go:125-138 | the index query refines full comparison for any faithful encoder with positive unit vectors |
| `Discovery.SearchIsBruteForce` | go_api/cmd/api/discovery.go:125-138 | in every reachable state the index query returns the same images, scores and order as comparing the seed in full with every other visible image over current annotations |
| `Discovery.ScoresAreCosines` | go_api/cmd/api/discovery.go:127-130 | every reported score lies in (0,1] |
| `Discovery.BestShape` | go_api/cmd/api/discovery.go:138 | at most ten rows, no image twice, each with its own score |
| `Discovery.BestRanks` | go_api/cmd/api/discovery.go:138 | the rows are the ten best: higher scores first, equal scores by descending id; an image is listed exactly when fewer than ten lead it, and is otherwise led by every row |
| `Discovery.SimilarImages` | go_api/cmd/api/discovery.go:91-172 | the handler answers not found, a status, or the hits whose images still exist, in order, from the states its four queries see |
| `Discovery.SimilarInRun` | go_api/cmd/api/discovery.go:91-172 | a request whose queries see states i <= j <= k <= l of one run returns, in order, the best matches of a full comparison in state k but for images gone by state l |
| `Discovery.BestInRun` | go_api/cmd/api/discovery.go:91-172 | the items returned while the system runs are other visible images with their positive similarities over the annotations of state k, most similar first; a similar image that still exists is among them exactly when fewer than ten are ahead of it, and no item is less similar than one left out |
| `Discovery.StatusInRun` | go_api/cmd/api/discovery.go:105-124 | and the status it reports is the truth about state j |
| `Discovery.Summarize` | go_api/cmd/api/discovery.go:143-171 | the collecting loops keep order and give each item its own score |
| `Discovery.ReportedStateIsTrue` | go_api/cmd/api/discovery.go:115-124 | ready is reported exactly for ready jobs, and no context only when no positive weight would index anything |
| `SearchSyntax.AcceptedIffDerives` | go_api/cmd/api/handlers.go:123-263 | a query is accepted with a tree exactly when its tokens derive the tree in the grammar, within the length and term limits |
| `SearchSyntax.AcceptedIsProper` | go_api/cmd/api/handlers.go:180-263 | accepted trees have at most 20 leaves, negation only over tags, comments and paths, and non-empty normalized leaves of at most 100 bytes |
| `SearchSyntax.POrSound` | go_api/cmd/api/handlers.go:143-159 | what the descent accepts is derived, with its terms counted |
| `SearchSyntax.POrComplete` | go_api/cmd/api/handlers.go:143-159 | what derives is accepted up to the next operator |
| `SearchSyntax.LexProper` | go_api/cmd/api/handlers.go:212-258 | every scanned term is normalized, non-empty and bounded |
| `SearchSyntax.WordLength` | go_api/cmd/api/handlers.go:286-288 | a word extends to the next delimiter |
| `SearchParser.Parser.SkipSpace` | go_api/cmd/api/handlers.go:265-269 | skips white space without changing what lies ahead |
| `SearchParser.Parser.ParseOr` | go_api/cmd/api/handlers.go:143-159 | the cursor parser returns what the token descent returns, and advances |
| `SearchParser.Parser.ParseAnd` | go_api/cmd/api/handlers.go:161-178 | likewise for conjunctions, explicit or by juxtaposition |
| `SearchParser.Parser.ParseUnary` | go_api/cmd/api/handlers.go:180-193 | likewise for negation |
| `SearchParser.Parser.ParsePrimary` | go_api/cmd/api/handlers.go:195-211 | likewise for groups and terms |
| `SearchParser.Parser.ParseTerm` | go_api/cmd/api/handlers.go:212-263 | likewise for one term and the term limit |
| `SearchParser.Parser.ScanQuoted` | go_api/cmd/api/handlers.go:227-246 | a comment or path term reaches to its closing mark |
| `SearchParser.ParseImageSearch` | go_api/cmd/api/handlers.go:123-141 | the whole imperative parser returns exactly the specified parse |
| `SearchBytes.WordQuery` | go_api/cmd/api/handlers.go:248-258 | any non-empty run of bytes other than white space, ! # + ( ) and the vertical bar that does not begin with a quote is one text term, its value the trimmed and folded bytes with underscores as spaces, accepted exactly when that has 1 to 100 bytes |
| `SearchBytes.TagQuery` | go_api/cmd/api/handlers.go:215-226 | a # and any such run is one tag, accepted exactly when its cleaned value is a valid tag |
| `SearchBytes.QuoteQuery` | go_api/cmd/api/handlers.go:227-247 | everything between [ and ], or between apostrophes, is one comment or path term |
| `SearchBytes.OpenQuote` | go_api/cmd/api/handlers.go:233-236 | a quote that is not closed is refused |
| `SearchBytes.BarEnds` | go_api/cmd/api/handlers.go:143-159 | a vertical bar ends a word and stands for OR |
| `SearchBytes.PlusAndWhiteEnd` | go_api/cmd/api/handlers.go:161-178 | a + and every white space byte end a word and stand for AND |
| `SearchBytes.HashEnds` | go_api/cmd/api/handlers.go:286-288 | a # ends a word and begins a tag |
| `SearchBytes.BangEnds` | go_api/cmd/api/handlers.go:180-193 | a ! ends a word and negates the tag after it |
| `SearchBytes.ParenthesesEnd` | go_api/cmd/api/handlers.go:195-210 | parentheses end a word and group |
| `SearchBytes.NegatedQuery` | go_api/cmd/api/handlers.go:180-193 | a tag, comment or path after ! is accepted as its negation; a word after ! is refused |
| `SearchBytes.WritableIff` | go_api/cmd/api/handlers.go:212-258 | the terms a print can write, by their bytes |
| `SearchBytes.BlankQuery` | go_api/cmd/api/handlers.go:123-131 | a query is blank exactly when it is at most 1000 bytes of white space, and refused when longer than 1000 bytes |
| `SearchPrinter.RoundTrip` | go_api/cmd/api/handlers.go:123-263 | parsing a well-formed tree's minimally parenthesised print returns the tree |
| `SearchCanonical.FewestParentheses` | go_api/cmd/api/handlers.go:143-211 | no query for a tree has fewer groups than its print, so leaving a printed group out gives a query that is refused or means something else |
| `SearchCanonical.AcceptedTermPrintable` | go_api/cmd/api/handlers.go:212-258 | an accepted term is read back from its written form exactly when it is free of the bytes that would end or requote it |
| `SearchCanonical.AcceptedRoundTrip` | go_api/cmd/api/handlers.go:123-263 | printing the tree of any accepted query whose terms can be written, and parsing the print, gives the tree again |
| `SearchPrinter.OrDenotes` | go_api/cmd/api/handlers.go:143-193 | the print's derivation denotes the tree: left-associated operators, negation over AND over OR |
| `SearchPrinter.OrSpells` | go_api/cmd/api/handlers.go:195-288 | the printed bytes scan to the derivation's tokens in any context that ends a word |
| `LikePatterns.LikePrefix` | index_worker/cmd/index-worker/main.go:368 | without wildcards, a pattern ending in % matches exactly the strings it starts |
| `LikePatterns.EscapedIsLiteral` | go_api/cmd/api/handlers.go:290-302 | a pattern of escaped characters matches exactly the text they spell |
| `LikePatterns.UnderscoresCount` | index_worker/cmd/index-worker/main.go:368 | n underscores match exactly the texts of n characters |
| `LikePatterns.ContainingIffPlain` | go_api/cmd/api/handlers.go:290-302 | a term between % signs means containment for all texts exactly when it has no wildcard or escape |
| `LikePatterns.ScopeIsSubtreeIff` | index_worker/cmd/index-worker/main.go:364-376 | the deletion's scope is the subtree for all paths exactly when the root has no % or _ |
| `SqlConditions.CompiledReads` | go_api/cmd/api/handlers.go:290-313 | a compiled node is read as one operand under SQL precedence, whatever follows it |
| `SqlConditions.ReadsBalanced` | go_api/cmd/api/handlers.go:290-313 | a condition read under SQL precedence closes the parentheses it opens |
| `SqlConditions.ConditionMeans` | go_api/cmd/api/handlers.go:290-313 | with its values bound between any earlier and later arguments, the condition holds of an image exactly when the tree matches it |
| `SqlConditions.PlainMatches` | go_api/cmd/api/handlers.go:290-302 | for terms without wildcards LIKE matching is containment |
| `SqlConditions.PercentParses` | go_api/cmd/api/handlers.go:248-258 | the query `50%` is accepted as one text term |
| `SqlConditions.PercentFinds` | go_api/cmd/api/handlers.go:290-302 | and matches an image named "50 cats", where the term does not occur |
| `SqlConditions.LeafValues` | go_api/cmd/api/handlers.go:290-310 | one argument per leaf, left to right |
| `SqlConditions.WhereSelects` | go_api/cmd/api/handlers.go:43-63 | the joined WHERE clause selects exactly the images the search, tag, untagged and favorite filters ask for, whatever arguments are appended later |
| `SqlCompiler.Arguments.Add` | go_api/cmd/api/handlers.go:45-48 | appends an argument and names its placeholder |
| `SqlCompiler.Compile` | go_api/cmd/api/handlers.go:290-313 | emits the specified text and appends the leaves' values in order |
| `SqlCompiler.JoinFilters` | go_api/cmd/api/handlers.go:63 | joins the filters with AND after TRUE |
| `SqlCompiler.BuildFilters` | go_api/cmd/api/handlers.go:43-63 | the filters and arguments of a request |
| `SqlCompiler.PrepareListing` | go_api/cmd/api/handlers.go:30-69 | refuses invalid queries and long tag parameters, otherwise prepares the WHERE clause, arguments, limit and offset |
| `FileTree.JoinSplit` | index_worker/cmd/index-worker/main.go:236 | catalog paths can be split back into the names they join |
| `FileTree.JoinInjective` | index_worker/cmd/index-worker/main.go:236 | different safe routes have different catalog paths |
| `FileTree.HarmlessIff` | index_worker/cmd/index-worker/main.go:441-453 | a name is safe exactly when it is not empty, . or .., and holds no $, slash, backslash, NUL or control character |
| `FileTree.MediaIff` | index_worker/cmd/index-worker/main.go:455-472 | a file is supported, or a video, exactly when what follows its last dot is, folded, one of the listed extensions |
| `FileTree.FoundIsReached` | index_worker/cmd/index-worker/main.go:194-241 | every file the walk finds is a supported regular file at the end of a safe route within the depth limit |
| `FileTree.ReachedIsFound` | index_worker/cmd/index-worker/main.go:194-241 | and every such file is found |
| `FileTree.FoundDistinct` | index_worker/cmd/index-worker/main.go:194-241 | no path is found twice, so one upsert statement never meets a row twice |
| `FileTree.FoundBelow` | index_worker/cmd/index-worker/main.go:213-236 | found paths lie in the root's subtree |
| `IndexCatalog.UpsertAppend` | index_worker/cmd/index-worker/main.go:319-323 | upserting in batches is upserting all files at once |
| `IndexCatalog.BatchTally` | index_worker/cmd/index-worker/main.go:308-318 | batch boundaries do not show in the indexed, updated and skipped counters |
| `IndexCatalog.UpsertSize` | index_worker/cmd/index-worker/main.go:308-323 | the catalog grows by the files counted as indexed |
| `IndexCatalog.Reconciled` | index_worker/cmd/index-worker/main.go:263-270 | after an authoritative scan, rows in the subtree are the files found and rows already stamped; rows outside are unchanged; survivors keep name, hits and uploader |
| `IndexCatalog.FoundRows` | index_worker/cmd/index-worker/main.go:319-323 | every file found has its row, sized and stamped; a new row has the file's name and no hits |
| `IndexCatalog.MissingRoot` | index_worker/cmd/index-worker/main.go:160-170 | a vanished root takes along exactly the rows of its subtree, whatever their stamps and the depth limit; every other row is unchanged, and the rows dropped are counted |
| `IndexCatalog.ReconcilesIff` | index_worker/cmd/index-worker/main.go:263-270 | the subtree's rows are exactly the files found if and only if every row already stamped there is one of them |
| `IndexCatalog.CatalogIsTree` | index_worker/cmd/index-worker/main.go:193-270 | after a complete unlimited scan a path is catalogued exactly when a safe route leads to a supported regular file there |
| `IndexCatalog.RowsConserved` | index_worker/cmd/index-worker/main.go:308-328 | catalog size moves by rows indexed and rows deindexed; processed equals discovered equals indexed plus updated plus skipped |
| `IndexCatalog.ResumedScan` | index_worker/cmd/index-worker/main.go:124-149 | a scan stopped after any number of files and run again under the same job leaves what an uninterrupted one leaves |
| `IndexCatalog.RescanChangesNothing` | index_worker/cmd/index-worker/main.go:178-270 | scanning an unchanged tree again counts every file as skipped and no row as inserted, updated or deleted |
| `IndexCatalog.RescanKeepsRows` | index_worker/cmd/index-worker/main.go:178-270 | and leaves the same rows, but for the stamps of the files found |
| `IndexCatalog.VanishedFileStays` | index_worker/cmd/index-worker/main.go:364-376 | a row stamped before an interruption survives the restarted scan although its file is gone |
| `IndexCatalog.WildcardRootOverreaches` | index_worker/cmd/index-worker/main.go:368 | a root with an underscore deletes a row outside its subtree |
| `IndexWorker.Scan.CountBatch` | index_worker/cmd/index-worker/main.go:308-318 | the counting loop classifies each file against the rows read |
| `IndexWorker.Scan.UpsertBatch` | index_worker/cmd/index-worker/main.go:274-342 | writes the batch and counts it once, unless a name is too long; then makes the thumbnails of its videos in order, each after a renewal of the lease, up to the first one refused |
| `IndexWorker.Scan.RenewForVideos` | index_worker/cmd/index-worker/main.go:332-341 | one renewal for each video, in order, before its thumbnail |
| `IndexWorker.Scan.Flush` | index_worker/cmd/index-worker/main.go:181-191 | a flush goes on exactly when the names fit and every contact found the job still this worker's, with one contact for each video and one for progress; it leaves the catalog at a prefix of the files found |
| `IndexWorker.Scan.WalkListing` | index_worker/cmd/index-worker/main.go:194-247 | the walk gathers the specified files and errors in order, less than a batch at a time unwritten, or stops at the first contact that found the job lost or at a name that does not fit |
| `IndexWorker.Scan.VisitEntry` | index_worker/cmd/index-worker/main.go:194-243 | one entry: unreadable, unsafe, link, too deep, unsupported, un-stat-able or gathered |
| `IndexWorker.Scan.GatherRoot` | index_worker/cmd/index-worker/main.go:193-258 | directory, single-file and odd roots |
| `IndexWorker.Scan.Settle` | index_worker/cmd/index-worker/main.go:259-270 | the job is cancelled exactly when the last contact found it withdrawn; otherwise it succeeds, and only an error-free scan without a depth limit deletes |
| `IndexWorker.Scan.DeindexMissingScope` | index_worker/cmd/index-worker/main.go:358-376 | deletes and counts the rows of a missing root |
| `IndexWorker.Scan.Process` | index_worker/cmd/index-worker/main.go:152-270 | for every batch size: success means the catalog and counters of an unbatched scan; anything else leaves a prefix upserted and nothing deleted; a lease-holding run over fitting names succeeds; a missing root below the media root succeeds with its subtree's rows gone and counted; an unsafe, linked or unavailable root fails with its code and changes nothing; a scan runs to its end exactly when every contact but the last found the job this worker's, and has then made the thumbnails of all its videos; else it stops at the first that did not |
| `Accounts.ChangeKeeps` | go_api/cmd/api/users.go:270-292 | an accepted change keeps an active administrator if there was one, and scrypt hashes on enabled accounts |
| `Accounts.AuditExact` | go_api/cmd/api/users.go:227-315 | accounts appear, and role, status and password change, only with the matching audit event |
| `Accounts.ChangeTakesEffect` | go_api/cmd/api/users.go:220-370 | an accepted change does what it says to its target and nothing to any other account |
| `Accounts.AcceptedIffAllowed` | go_api/cmd/api/users.go:64-375 | a request passes validation, recheck and its own statements exactly when it is allowed: the actor enabled with its own password (and an administrator unless changing its own password), the new name and password within their limits, the name unused, the target there, a disabled account enabled only with an scrypt hash, the last active administrator kept |
| `Accounts.StepInv` | go_api/cmd/api/users.go:111-145 | every step of lock, recheck, stage, commit and release keeps the account invariant |
| `Accounts.AccountSafety` | go_api/cmd/api/users.go:111-145 | over every interleaving an active administrator remains, enabled accounts have scrypt hashes, the committed changes form one serial history, and each had an actor enabled, authenticated and (unless changing its own password) an administrator in the very table it changed |
| `Accounts.ActorsHashed` | go_api/cmd/api/users.go:113-145 | nobody without an scrypt hash has ever changed an account |
| `Accounts.LoggedIsAllowed` | go_api/cmd/api/users.go:111-145 | over every run each committed change was allowed in the very table it changed |
| `Accounts.AllowedCommits` | go_api/cmd/api/users.go:111-145 | every allowed request can enter the free lock, be rechecked, staged and committed |
| `Accounts.AuditTrail` | go_api/cmd/api/users.go:147-150 | over every run the audit events alone determine which accounts exist and the role and status of each that was there at the start, and none of those changed its password without an event for it |
| `Accounts.LockNeeded` | go_api/cmd/api/users.go:111-119 | without the lock two accepted demotions leave no active administrator |
| `AccountStore.UserTable.BeginAccountChange` | go_api/cmd/api/users.go:113-145 | the recheck under the lock answers 401, 403 or proceeds |
| `AccountStore.UserTable.CreateUser` | go_api/cmd/api/users.go:193-232 | succeeds exactly when allowed; the reply and the new table and audit trail of a creation |
| `AccountStore.UserTable.UpdateUser` | go_api/cmd/api/users.go:234-317 | succeeds exactly when allowed; the reply and the new table and audit trail of a role or status change |
| `AccountStore.UserTable.SetAccountPassword` | go_api/cmd/api/users.go:319-375 | succeeds exactly when allowed; the reply and the new table and audit trail of a reset or own password change |
| `Authentication.KeyInjectiveIff` | go_api/cmd/api/main.go:242-248 | a name's cache keys are its own, against all NUL-free names and passwords, exactly when it has no NUL |
| `Authentication.DecideIsUncached` | go_api/cmd/api/main.go:214-240 | with any sound entry, at any time, the answer is the uncached one |
| `Authentication.StepInv` | go_api/cmd/api/main.go:206-240 | logins, stores, table changes and clock moves keep every entry's hash verifying its key's password |
| `Authentication.CacheIsInvisible` | go_api/cmd/api/main.go:206-240 | over every interleaving each answer is what a check without a cache gives on the rows its query saw |
| `Authentication.AnswersAreTrue` | go_api/cmd/api/main.go:206-240 | over every run a login is answered exactly when it names an account that is not banned and gives its password, with that account's id and name, and as administrator exactly when the same row is an active administrator of the user table |
| `Authentication.LoginAnswered` | go_api/cmd/api/main.go:206-240 | whatever the cache holds, a login can be tried at any time and is answered on the rows of that time |
| `Authentication.Authenticator.Purge` | go_api/cmd/api/main.go:231-236 | the purge loop drops exactly the expired entries |
| `Authentication.Authenticator.Authenticate` | go_api/cmd/api/main.go:206-240 | answers exactly the right password of an account that is not banned, as administrator exactly when its role says so; stores the new proof, and runs the slow check exactly when there is no fresh one |
| `Threads.AncestorsDescend` | imageboard/migrations/versions/0001_secure_baseline.py:80-88 | ancestors are older, on the same image, and all different |
| `Threads.PostKeeps` | go_api/cmd/api/handlers.go:987 | posting under a chain of at most 8 keeps every chain bounded |
| `Threads.DeleteKeeps` | imageboard/migrations/versions/0001_secure_baseline.py:80-88 | a cascading deletion keeps every remaining chain as it was |
| `Threads.ImageGone` | imageboard/migrations/versions/0001_secure_baseline.py:80-88 | deleting an image takes its own messages and no others |
| `Threads.StepInv` | go_api/cmd/api/handlers.go:968-986 | while its parent exists, what a walk has read and has still to read is the parent's chain |
| `Threads.ThreadsBounded` | go_api/cmd/api/handlers.go:968-987 | from no comments, under any interleaving of walks, posts and deletions, every chain has at most 8 ancestors |
| `Threads.ChainInWorld` | go_api/cmd/api/handlers.go:968-987 | every reply chain in every reachable state is acyclic, on one image and at most 8 long |
| `Threads.PostReached` | go_api/cmd/api/handlers.go:951-1002 | every comment the handler accepts can be posted: its walk, left alone, comes to its end and inserts it |
| `Threads.CommentTable.CheckThread` | go_api/cmd/api/handlers.go:968-985 | accepts exactly a parent on the image whose chain with it has at most 8 messages, with one query for each message of the chain up to the eighth |
| `Threads.CommentTable.AddComment` | go_api/cmd/api/handlers.go:951-1002 | when a comment is accepted, and the row it adds |
| `CommentCursor.DateRoundTrip` | go_api/cmd/api/users.go:412 | a formatted UTC time with a four-digit year is read back exactly |
| `CommentCursor.OtherYearsRejected` | go_api/cmd/api/users.go:412 | one with any other year is not |
| `CommentCursor.Base64RoundTrip` | go_api/cmd/api/users.go:407 | unpadded URL-safe base64 decodes what it encodes |
| `CommentCursor.CursorShort` | go_api/cmd/api/users.go:404-406 | cursors the server makes are within the length it accepts |
| `CommentCursor.CursorRoundTrip` | go_api/cmd/api/users.go:403-418 | a page's cursor is read back as its exact position if and only if the year has four digits, and is refused otherwise |
| `CursorTexts.IntegerAccepted` | go_api/cmd/api/users.go:413 | a text is accepted as an id's number exactly when it is an optional sign and digits within 32 bits |
| `CursorTexts.TimeAccepted` | go_api/cmd/api/users.go:412 | a text is accepted as a time exactly when it spells a valid date with a four-digit year, any digits of a fraction and Z, and as that date |
| `CursorTexts.DecodeAccepts` | go_api/cmd/api/users.go:407 | a text is decoded exactly when, but for line breaks, it is over the URL-safe alphabet and not one symbol longer than whole groups of four |
| `CursorTexts.DecodedFrom` | go_api/cmd/api/users.go:407 | what is decoded encodes back to the text it came from, but for unused bits of a last symbol |
| `CursorTexts.BreaksIgnored` | go_api/cmd/api/users.go:407 | line breaks in a text to decode are skipped |
| `CursorTexts.CursorAccepted` | go_api/cmd/api/users.go:403-418 | a cursor is accepted exactly when it has at most 100 characters and decodes to a time, a comma and a positive 32-bit number, and as these |
| `Calendar.EveryInstant` | go_api/cmd/api/users.go:412 | every instant is that of a valid date, so with EarlierIsInstant of exactly one |
| `CommentHistory.EarlierIsInstant` | go_api/cmd/api/users.go:448 | stored times are ordered as the instants they name, counted in nanoseconds over the Gregorian calendar |
| `CommentHistory.WalkDescends` | go_api/cmd/api/users.go:448-472 | whatever changes between requests, pages list in strictly descending (date, id) order |
| `CommentHistory.WalkGoesBack` | go_api/cmd/api/users.go:448-472 | whatever changes between requests, comments are listed at ever earlier instants, and at the same instant by ever smaller ids |
| `CommentHistory.NoneTwice` | go_api/cmd/api/users.go:448-472 | no comment is listed twice |
| `CommentHistory.WalkComplete` | go_api/cmd/api/users.go:448-472 | a finished walk lists every comment that was there at each of its requests |
| `CommentHistory.WalkSound` | go_api/cmd/api/users.go:448-472 | what is listed was in the history one of the requests saw |
| `CommentHistory.StillWalk` | go_api/cmd/api/users.go:448-472 | over an unchanged history the walk ends and has listed it all, newest first |
| `CommentHistory.CitableIff` | go_api/cmd/api/users.go:403-418 | a comment's own cursor is accepted, and leads back to it, exactly when its year has four digits; no cursor over 100 bytes is accepted |
| `CommentHistory.FollowIsWalk` | go_api/cmd/api/users.go:425-472 | following the encoded cursors is that walk: no request is refused and no position lost |
| `CommentHistory.HistoryOnce` | go_api/cmd/api/users.go:420-474 | following next_cursor from the empty cursor lists each comment present throughout exactly once |
| `CommentHistory.ScanPage` | go_api/cmd/api/users.go:453-470 | the row loop and the cut at the limit give the page and its cursor position |
| `CommentHistory.UserComments` | go_api/cmd/api/users.go:420-474 | the handler's refusals, page, next cursor and capped limit |

## Left out

- Float rounding: weights and scores are reals, so ties that only rounding makes are not seen.
- Character tables, stop words, `log1p`, square root, scrypt, the keyed digest, SHA-256: parameters with the laws named above.
- `source_hash`: stored but never read by the modelled code.
- EmbeddingWorker.Run: returns when nothing is left to do, where the original polls forever; EmbeddingLiveness.QueueDrains is about unending runs of many workers. The pause between images is not modelled.
- Discovery.SimilarImages: the summaries' other fields are not modelled.
- Reply cascades inside an annotation transaction are deletions listed in that transaction.
- SearchParser.ParseImageSearch: the different error messages are one refusal.
- SearchPrinter.RoundTrip: over terms that can be written: free of the delimiters and closing marks that would end them, and normalized, as accepted terms are under the table laws of SearchCanonical.Tidy.
- SqlCompiler.PrepareListing: page and limit arrive as the positive numbers their parsing yields; running the queries is not modelled.
- The SQL reader knows parentheses, NOT, AND, OR and the compiler's own tests as atoms; the text inside a test is not parsed.
- FileTree.FoundIsReached: a tree is a snapshot; entries that appear or vanish during the walk are files that fail to stat or directories that fail to read.
- IndexWorker.Scan.Process: the catalog changes only by the scan itself, and a run that lost its lease is modelled only up to its own statements; database failures other than a name over 200 characters are not modelled.
- The root's canonical path check, thumbnails, the job row's progress counters and the index job queue (claim, enqueue, cancel).
- Accounts.AccountSafety: the command-line account scripts take the same lock and are not modelled; lost database connections are the release step.
- AccountStore.UserTable.UpdateUser: path parsing beyond the range check, and the JSON body's decoding.
- CursorTexts.TimeAccepted: times are read only as the server writes them, with Z and two digits for every field; the original also accepts numeric offsets and a one-digit hour.
- CommentHistory.HistoryOnce: comments are their (date, id) places; the other columns ride along.
- HTTP routing, headers, templates, dashboards, tag lists, offset pagination, favourites and title edits: they would only add easy members.
