# A model of trynix

trynix walks the runtime closure of a Nix store path in a browser, downloads and unpacks its archives into an in-memory
filesystem, and boots a virtual machine on them. This project models the algorithms on that way and proves what they
promise. `dafny verify dfyconfig.toml` checks all of it.

## What is modelled

**The closure and the page.** `Closure` is the breadth-first walk over references with its set of known digests: methods
with the loops of the original, proved against reachability in a graph. `Narinfo` reads the narinfo the walk follows.
`Session` is the page: any number of clicks that boot it and then add to it, where the caches serve and the downloads give
whatever they happen to give at that time, of a fixed index whose narinfos name their own digests. How every click ends is
a function of the clicks before it, of what is served and of which archives the store takes. The invariant says that what
is mounted is closed under references, is the closure of everything asked for, and is what the share has written, archive
by archive, less what a write that threw has lost; `Session.Run` says it of whole runs. Which programs have a link after a
run is as exact (`Session.FarmIs`), and `Stranding` is a run after which one has none. `Views` has the narinfo as its
readers see it, and goes from a signature on it to the bytes that are parsed.

**From archive to filesystem.** `Nar` is the parser over a cursor, proved against a grammar over the stream of blobs that
can be read from an offset. `Archive` serialises trees and proves which byte strings are read back. `FileSystem` has the
calls of the emscripten filesystem that are used, each of which can throw; `Paths` the path arithmetic; `Writer` the writer
that relies on archive order, and `Fitting` what that order has to be. The main theorem goes from a tree through its bytes, the parser and the writer back to the
tree.

**The farm.** `Farm` is what precedence means, on maps from program names to packages; `Share` is the object that keeps
files and links, proved to keep the two in step.

**Concurrency and retries.** `Pool` is the worker pool and the decode queue as state machines over the steps between two
awaits, alone and composed, for every schedule. `Fetch` is the retry loop and the fetch of one archive, with the network as
a script of answers and the sum of all progress reports as the conserved quantity. `Unbzip2` is the feeding of the bzip2
decoder and its buffer.

**Codecs and framing.** `NixBase32` is the hash decoder as big-number arithmetic; `Form` and `Url` the link, its two
printers and its reader; `Shell` the quoting of a command and its echo; `Agent`, over `Chains` and `Text`, the framing of
its output; `Console` the watcher with its bounded transcript, and `Transcript` what a run is read as from that. `Driver`
puts a run together: the line that is typed, what a shell and printf make of it, the terminal, and what is read.

**Words.** `Cputest` has the reference bit loops of the CPU probe, `Crc32c` its checksum and the division of polynomials
over GF(2) it computes.

**Versions and signatures.** `Versions` compares, merges and resolves; `Substituters` has fingerprints, signature checks and
the order caches are asked in.

Where a comment of the original and its code disagree, the code is modelled: `compareVersions` puts the shorter list first
(site/js/multiverse.js:176-181, against lines 164-167), and `holdsPath` is false once one cache has answered, although
another could not be asked (site/js/substituters.js:165-183, against lines 151-158). `verify` is to be true when some
configured key signed and false when none did (lines 68-71); the code tries only the first key of a name
(lines 83-86), so that is so exactly when no two keys share one (`Substituters.FindsOutIffOneKeyEach`).

## What turned out not to hold, and when it does

- The closing line of a run is not always the one its status is read from. Matches of the pattern do not overlap and take
  the line feed before the line with them, so in an unbroken run of closing lines every other one is matched. A command
  whose output ends with a closing line without its line feed has that status read. `Agent.OwnLineIsReadIffOdd` has the exact
  condition, `Agent.SwallowedStatus` the family of inputs.
- `mounted` is ahead of the share when an archive cannot be written: it is updated first (site/js/app.js:888-891). That
  happens exactly when the store, even an empty one, does not take some archive the addition needs (`Session.Page.Add`,
  `Session.Run`), and then it stays that way (`Session.SharedIffNothingLost`). Of archives that are the parse of a tree
  with distinct sibling names these are the ones with a name `.` or `..` (`Session.GenuineThrowsIff`); an archive that
  holds a directory twice under one name is another (`Writer.DoubledDirectoryThrows`); of any archive it can be told from
  the list of its entries (`Session.RefusedIff`).
- Not every program of every written path has a link once the write of an addition has thrown: what was written before
  the throw is not linked, and later additions link only what they write and what they name (site/js/boot.js:392-400).
  `Session.AllLinkedIff` has the exact condition, `Session.StrandedUnlessRelinked` how long it lasts, and
  `Stranding.ProgramWithoutLink` an input.
- An archive that passes every check and does not parse stays in the cache, and every later visit fails on it without a
  fetch (site/js/store.js:138-140): `Fetch.FetchNar`, `Fetch.MalformedForeverIff`, `Fetch.EmptyBodyIsMalformed`.
- A narinfo signed by a configured key can count as unsigned: `Substituters.FindsOutIffOneKeyEach`.
- A run whose output is longer than the console keeps comes back as the end of its output, and a cut can fall so that a
  status is read that no line gave: `Transcript.ShownOutput`, `Transcript.ShownStatus`.
- The parser takes names `.` and `..`, and such a tree is not rebuilt: `Writer.ArchiveRoundTrip`.
- An output whose lines end in CR LF comes back with LF: `Agent.OutputComesBack` has the exact condition.
- A link does not carry a cache whose URL is empty or ends in a slash, although reading can produce one:
  `Url.RoundTripIff`, `Url.SlashIsLost`.
- An overlong base32 text can decode with digits lost: `NixBase32.OverlongDecodesRightIff` has the exact condition. The
  caller checks the length first (site/js/hash.js:96-99), so this never happens to it.
- A truncated archive that lacks only padding is accepted: `Archive.ParseOfPrefix`.
- A marker completed by a write longer than the transcript allows can be missed: `Console.LongWriteHides`.
- Comparing versions is not transitive in general (`Versions.CompareIsCyclic`); `Versions.CompareIsTransitiveIff` has the
  exact condition.
- A symlink target that climbs past the root, or is the root, does not come out absolute: `Paths.AbsoluteTargetMeans`.
- On the final failure of an archive, and when it does not parse or its decoder is missing, the progress reported for its
  last body is not taken back: `Fetch.FetchNar`.

## Model

| member | source | states |
|---|---|---|
| `Closure.WalkClosure` | site/js/closure.js:68-109 | a walk that is not refused returns exactly what is reachable from the root through digests outside `known`, each once, each fetched once and in that order, in non-decreasing distance, with its own narinfo; the order is the one of discovery, frontier by frontier and reference by reference, so the index determines it; a refused walk has fetched a prefix of it, and names a digest no cache serves that the walk needed |
| `Closure.QueueReferences` | site/js/closure.js:94-101 | the references of one narinfo are queued once each, where they first occur, those seen before not at all: self-references and diamonds included |
| `Closure.FetchBatch` | site/js/closure.js:84-87 | a batch fails with a digest of its own that no cache serves, and only then |
| `Closure.WalkLayer` | site/js/closure.js:81-104 | batches of 20 cover the frontier in order; what is recorded and queued is the frontier and its unseen references, however the frontier is cut; a refusal comes with the batch that has the missing digest, all batches before it answered |
| `Closure.DigestLeads` | site/js/closure.js:49-50 | the digest is what stands before the dash, 32 characters |
| `Closure.BallMeans` | site/js/closure.js:60-66 | what is within n layers is what a path of at most n references leads to |
| `Closure.ReachMeans` | site/js/closure.js:60-63 | reachable means joined by a path of references, of any length |
| `Closure.ReachOutsideClosed` | site/js/closure.js:65-67 | with a reference-closed `known`, the walk finds exactly the closure of the root less `known` |
| `Closure.SkippingIsExactIffClosed` | site/js/closure.js:65-67 | skipping `known` loses nothing, for every root, if and only if `known` is closed under references |
| `Closure.ReachAllIsClosed` | site/js/app.js:545-547 | the union of the closures of any roots is closed under references |
| `Closure.WalkRoots` | site/js/app.js:547-564 | one walk per root, each knowing what the ones before found: together the closure of all roots less what was known, each digest once, with its narinfo, in an order that the index, the roots and what was known determine; a refusal names a needed digest no cache serves |
| `Narinfo.ParseNarinfo` | site/js/closure.js:9-47 | each field is the value of the last line that gives it, the signatures are those of all `Sig` lines in order, lines without a colon and blank mean nothing, and an absent or empty compression is bzip2 |
| `Narinfo.KeyAndValueMeans` | site/js/closure.js:16-22 | a line is cut at its first colon with a blank behind it, and one without any is no field |
| `Narinfo.NarinfoIsRead` | site/js/closure.js:9-47 | lines written `key: value`, in any order, are read as what they say: every signature, the references one by one, path, URL and hash, the sizes with 0 for a missing one, the compression with bzip2 for a missing or empty one |
| `Paths.AbsoluteTarget` | site/js/store.js:356-373 | the loop over the components computes the specification function, whose meaning `Paths.WrittenLeads` and `Paths.AbsoluteTargetMeans` give |
| `Paths.WrittenLeads` | site/js/store.js:341-373 | for every target: as it is written it leads from the root where the target leads from the directory of its link; an absolute one is written as it is, and nothing absolute changes when written again, for whatever link |
| `Paths.AbsoluteTargetMeans` | site/js/store.js:356-373 | a relative target comes out absolute if and only if it stays strictly below the root, and then it is the path that lexical resolution against the directory of the link gives |
| `Paths.AbsInjective` | site/js/store.js:404-417 | different lists of proper names are different paths |
| `FileSystem.EnsureDir` | site/js/store.js:329-339 | making every component in turn is what the specification function says, failures ignored |
| `FileSystem.EnsuredMeans` | site/js/store.js:329-339 | on a path nothing blocks, afterwards every step of it is a directory and nothing else has changed |
| `Nar.Reader.U64` | site/js/nar.js:22-28 | a number is eight bytes, least significant first, and reading past the end throws |
| `Nar.Reader.ReadBlob` | site/js/nar.js:31-40 | a blob is what the stream of blobs at the cursor begins with; each read advances at least 8 bytes or throws |
| `Nar.Reader.Expect` | site/js/nar.js:42-49 | a token other than the wanted one throws |
| `Nar.ParseNode` | site/js/nar.js:52-97 | the recursive parser pushes, in archive order, exactly the entries the grammar gives, throws exactly where it does, and terminates on every byte string |
| `Nar.ParseRegular` | site/js/nar.js:57-71 | a file: the executable mark is optional, its token is empty, and contents follow |
| `Nar.ParseSymlink` | site/js/nar.js:73-78 | a symlink and its target |
| `Nar.ParseEntry` | site/js/nar.js:86-91 | one entry of a directory: its node under the joined path |
| `Nar.ParseEntries` | site/js/nar.js:80-94 | the loop over a directory reads entry after entry up to the closing parenthesis, and throws on any other token |
| `Nar.ParseNar` | site/js/nar.js:99-105 | the parser agrees with the grammar on every byte string, and ends where the grammar ends |
| `Archive.ParseOfSerialised` | site/js/nar.js:99-105 | parsing a serialised tree gives its entries, directories before what is in them, and consumes exactly the archive |
| `Archive.ParseOfPrefix` | site/js/nar.js:31-50 | of all prefixes of an archive the parser accepts exactly those that lack at most 7 bytes, the last padding, which is never looked at |
| `Archive.NodeRoundTrip` | site/js/nar.js:52-97 | a node serialised anywhere in an archive is parsed back under its path, and the rest of the archive is left |
| `Writer.WriteEntries` | site/js/store.js:441-466 | the loop over the entries does to the filesystem what the specification function says, and throws where it does |
| `Writer.WritesArchive` | site/js/store.js:437-466 | onto a vacant place whose parents exist, a tree whose siblings have distinct, non-empty, slash-free names is written without a throw if and only if none of the names is `.` or `..`; then no `mkdir` lacks its parent or finds its name taken, and the result is the layout of the tree and nothing else |
| `Writer.WriteStays` | site/js/store.js:441-466 | whatever the entries and however far the write gets, nothing changes but at the root and below it |
| `Writer.WriteAgrees` | site/js/store.js:441-466 | and nothing else matters: two filesystems that are the same below the root take the same entries, and are the same below it afterwards |
| `Fitting.TakenIffAllFit` | site/js/store.js:441-466 | any list of entries is written whole onto a vacant place whose parents exist if and only if each entry fits behind the ones before it: its last component is neither empty nor a dot nor two dots, an earlier entry has made its directory, and its place is free or, for a file, a file's |
| `Writer.RepeatedPathThrows` | site/js/store.js:446-465 | a directory or a symlink whose path an earlier entry has makes the write throw, on every filesystem |
| `Writer.DoubledDirectoryThrows` | site/js/store.js:447-452 | the parser takes an archive that holds a directory twice under one name, and no filesystem takes what it gives |
| `Writer.WrittenProgramsAreProper` | site/js/store.js:378-390 | whatever is written whole offers only names that a link in the farm can have |
| `Writer.LayoutMeans` | site/js/store.js:441-466 | after writing, looking a path up below the root gives what the tree has there, symlink targets made absolute, and nothing where it has nothing |
| `Writer.ArchiveRoundTrip` | site/js/store.js:437-466 | serialise, parse, write, for every tree of distinct, non-empty, slash-free sibling names: the tree is back under its root, contents, modes, and links that lead where they did, if and only if none of its names is `.` or `..`, otherwise the write throws; either way nothing outside the root has changed |
| `Writer.ProgramsMean` | site/js/store.js:378-390 | the programs of a written tree are exactly the executables and symlinks directly in its `bin` |
| `Writer.ProgramsStart` | site/js/store.js:378-390 | of any entries written whole, each program is on disk in the bin directory, a link or a file marked executable |
| `Writer.EntriesMean` | site/js/store.js:437-443 | an entry is in the list exactly when the tree has that node at that path |
| `Farm.BatchWinner` | site/js/boot.js:210-219 | who a name belongs to after a batch: with KEEP what was there, then the first root; with REPLACE the last root, then what was there; in both, then the first of the rest |
| `Farm.BatchKeepsSound` | site/js/boot.js:199-219 | every link names a linked package that offers the program, and every program of every linked package has a link: kept by linking a batch, whatever was written meanwhile; what of the written packages is linked, `Session.AllLinkedIff` says |
| `Farm.BootWinner` | site/js/boot.js:346-347 | after boot the first root that offers a name has it |
| `Farm.AddWinner` | site/js/boot.js:392-400 | after an addition the last root that offers a name has it; a name no root offers stays as it was |
| `Farm.KeepWinner` | site/js/store.js:407-412 | a KEEP step never alters a link that is there |
| `Farm.BatchesAgree` | site/js/boot.js:210-219 | two farms with the same names that agree on the names decided so far, and a batch on each whose packages come in different orders: the names are again the same, and what was decided or is offered by a root is agreed on |
| `Farm.AdditionDecides` | site/js/boot.js:392-400 | over a boot and any number of additions, a name some root offers belongs to the last such root of the last addition with one, else to the first of the boot: kept by the next addition, whatever it wrote and in which order |
| `Share.LinkProgram` | site/js/store.js:406-415 | an existing link is kept, or unlinked and made again; the farm shows the new map of links and nothing outside it changes; where a link leads, `Share.LinkStarts` says |
| `Share.LinkPrograms` | site/js/store.js:404-416 | all of a package's programs, over whatever the farm has |
| `Share.StoreShare.Write` | site/js/boot.js:184-190 | a path already written is left alone; a new one is written with its programs noted exactly when an empty store would take it; every other package and every link stays as it was, also when the write throws, and what throws is not noted |
| `Share.WriteStores` | site/js/store.js:441-466 | a package on disk is what writing it alone gives, whatever else the store holds, and no other write changes that |
| `Share.TakesIffAllFit` | site/js/store.js:441-466 | whether the store takes an archive can be told from its list of entries: exactly when they fit one behind the other |
| `Share.TakesProperTrees` | site/js/store.js:437-466 | of the parses of trees with distinct sibling names the store takes exactly those without `.` and `..` |
| `Share.StoredTree` | site/js/store.js:437-466 | a package written from the parse of a tree is that tree on disk, as long as the share lives |
| `Share.LinkStarts` | site/js/store.js:404-416 | a link of the farm, `/share/bin/<name>`, leads the guest, for which `/nix` is `/share/nix`, to `/share/nix/store/<package>/bin/<name>`, and what is there can be started |
| `Share.StoreShare.Link` | site/js/boot.js:193-201 | the files in the farm are exactly the new map of links, and no written tree changes |
| `Share.StoreShare.LinkAll` | site/js/boot.js:207-216 | roots first, then the rest only where a name is free: the map of links is the one the precedence lemmas speak of |
| `Session.DigestsOfRoots` | site/js/app.js:503-513 | the digests the roots name, in the order of the selection, first occurrences only |
| `Prelude.DeduplicatedMeans` | site/js/app.js:503-513 | no digest twice, and none lost |
| `Prelude.DeduplicatedOrder` | site/js/app.js:503-513 | of two digests that stays in front which the selection has first |
| `Session.BasenamesInOrder` | site/js/app.js:517-523 | the names of the selected packages, digest by digest in the order of the selection |
| `Session.WalkServed` | site/js/app.js:547-564 | a walk over what the caches answer right now fails exactly when something needed is not served, and otherwise finds what the whole index has |
| `Session.WriteEach` | site/js/boot.js:392-398 | archives are written in the order given, up to the first that an empty store would not take: that one and all after it are lost, everything before it is in the share as it came, and what was there stays |
| `Session.Launch` | site/js/boot.js:346-347 | a new share filled with a closure in arrival order and linked, roots first, keeping what is there; it goes through exactly when the store takes every archive |
| `Session.Extend` | site/js/boot.js:392-400 | more of a closure written into a running share, its roots linked over what was there; when a write throws, what came before it is in the written map, and neither the links nor what counts as linked change |
| `Session.StartShare` | site/js/app.js:657-800 | a boot ends as the closure of its roots, the answers and the archives determine, in whatever order archives arrive; the share of one that goes through has exactly that closure, farm linked |
| `Session.Page.Boot` | site/js/app.js:657-800 | exactly how a boot ends: a digest not served, a download that fails, an archive the store does not take, or mounted; only the last leaves anything, and then what is mounted is the closure of the roots, and is what the share has written |
| `Session.Page.Add` | site/js/app.js:849-902 | exactly how an addition ends; a walk or a download that fails, and nothing new to mount, change neither what is mounted nor the share nor the farm; a write throws exactly when some archive needed is not taken, and then `mounted` is ahead of the share by the archives from the first refused one on, those before it, in the order of discovery, are written, and nothing is linked |
| `Session.Page.MountAndWrite` | site/js/app.js:888-891 | what was walked is mounted before it is written: when a write throws, what it lost counts as mounted, and what it had written is not linked |
| `Session.Page.Click` | site/js/app.js:829-835 | the button boots, and once a boot has gone through it adds; after every click the page is in order, also after a write that threw |
| `Session.MountedGrows` | site/js/app.js:860-890 | what is mounted together with what a walk from it finds is the closure of everything asked for so far |
| `Session.Run` | site/js/app.js:622-902 | over any number of clicks, failed ones and ones whose write threw included: how each ends is determined by the ones before it, what is mounted is the closure of everything asked for by those that mounted, and something is lost exactly when the write of an addition threw |
| `Session.StartedIff` | site/js/app.js:796-797 | the page has started exactly when some click mounted |
| `Session.SharedIffNothingLost` | site/js/app.js:888-891 | what is mounted is closed under references, and is exactly what the share has written if and only if nothing was lost |
| `Session.ThrowMeans` | site/js/boot.js:392-398 | a write that throws loses an archive that is not taken; everything needed that is not lost is taken, and nothing is linked |
| `Session.LostIffThrew` | site/js/boot.js:392-398 | over any number of clicks, something is lost exactly when the write of an addition threw |
| `Session.FarmIs` | site/js/boot.js:199-219 | over any number of clicks, the names in the farm are the programs of the packages that have been linked, no more and no fewer, and each leads the guest to a program that is on disk and can be started |
| `Session.AllLinkedIff` | site/js/boot.js:392-400 | every program of every written path has a link if and only if whatever was written and not linked offers only programs that something linked offers too |
| `Session.StrandedAfter` | site/js/app.js:868-891 | a click strands what it writes before a throw, and brings back only what it names itself while it mounts something new |
| `Session.StrandedUnlessRelinked` | site/js/app.js:868-891 | what is written and not linked stays so, through any number of further clicks, exactly until one that mounts something names it |
| `Stranding.ProgramWithoutLink` | site/js/boot.js:392-400 | an input: an application, its tool and its library, the last with an archive that cannot be written; the tool is written, and its program has no link, whatever is clicked afterwards |
| `Session.MountedTree` | site/js/app.js:783-783 | a mounted package that was not lost, and whose archive is the parse of a tree, is that tree in the share |
| `Session.GenuineThrowsIff` | site/js/boot.js:184-190 | when every archive needed is the parse of a tree with distinct sibling names, a write throws if and only if one of the trees has a name `.` or `..` |
| `Session.RefusedIff` | site/js/boot.js:392-398 | an addition that has downloaded all it needs throws exactly if the entries of some archive do not fit one behind the other |
| `Session.SameLedger` | site/js/app.js:771-790 | what a run of clicks comes to does not depend on the order in which archives arrive |
| `Session.ArrivalOrderIrrelevant` | site/js/boot.js:210-219 | over a boot and any number of additions, throwing ones included, the order in which archives arrive changes neither what is mounted, nor what is written, nor the set of names in the farm, nor who has a name that a root of any click offers |
| `Pool.EveryInterleaving` | site/js/net.js:128-147 | in every interleaving items are called in index order, each once, at most min(limit, items) calls pending; a stored result is the item's own; at most 2 * items + min(limit, items) steps |
| `Pool.EveryEnd` | site/js/net.js:141-146 | the pool ends rejected exactly when some item fails, otherwise with result i for item i; with limit 0 it ends at once with no result |
| `Pool.StepKeepsSound` | site/js/net.js:132-139 | every index is with one worker, or answered, or unclaimed, and every step keeps that |
| `Pool.EveryHistory` | site/js/store.js:30-40 | decodes begin in submission order and one at a time, whatever fails |
| `Pool.NextKeepsOrder` | site/js/store.js:32-40 | everything before the front of the queue is settled and everything after it waits; the chained promise never rejects |
| `Pool.EveryFetch` | site/js/store.js:30-40 | composed: one decode at a time, no more archives than workers wait for one, and at most 12 * items + min(limit, items) moves |
| `Pool.EveryFetchEnds` | site/js/store.js:35-39 | composed: a run ends only when every worker is through and every decode is settled, so a failed decode never blocks the next |
| `Unbzip2.PiecesMean` | site/js/store.js:286-296 | the pieces are the compressed bytes in order, each byte once, at most 256 KiB at a time |
| `Unbzip2.OutputIs` | site/js/store.js:286-316 | what is unpacked is what the pushes give, in order, and then what the decoder gives at the end; it throws if any of them does |
| `Unbzip2.Blocks.Take` | site/js/store.js:270-285 | a block goes into its place or onto the pile; one that does not fit is refused, and nothing is written outside the buffer |
| `Unbzip2.Blocks.Archive` | site/js/store.js:307-315 | a buffer that is not full is no archive |
| `Unbzip2.Concat` | site/js/store.js:318-326 | joining gives the parts in order |
| `Unbzip2.Feed` | site/js/store.js:287-301 | the decoder is handed the pieces in order, and what was taken is what it said |
| `Unbzip2.UnpackWith` | site/js/store.js:287-316 | the decoder is freed on every way out; the archive is its output |
| `Unbzip2.Unbzip2` | site/js/store.js:254-316 | the preallocated and the joined path give the same bytes: the decoder's output, if no size was signed or it is that long, and otherwise none |
| `Fetch.Client.Drain` | site/js/net.js:18-42 | a body is its chunks in order, and its size is reported |
| `Fetch.Client.Attempt` | site/js/net.js:73-96 | an attempt that fails takes back all it reported, and only what passes is stored |
| `Fetch.Client.FetchWithProgress` | site/js/net.js:55-107 | the result is the cached body if it passes, else the first of four answers that does; what was reported nets its length, or nothing on giving up; a cached body that fails is forgotten |
| `Fetch.Judge` | site/js/store.js:126-150 | a body that does not decode, or decodes to another size or hash than the narinfo signs, has to be fetched again; a missing decoder ends it |
| `Fetch.Round` | site/js/store.js:112-152 | one round of the loop, its report taken back when the bytes are to be fetched again |
| `Fetch.FetchNar` | site/js/store.js:98-153 | the outcome is that of at most two rounds; what was reported nets the length of the last body; at most eight fetches; the last body is in the cache afterwards exactly when it came from there or could be kept, and either passed, parsing or not, or had no decoder: one found wrong never is; on a cached body that passes nothing changes |
| `Fetch.OnlyGenuineIsParsed` | site/js/store.js:77-90 | the parser only ever sees an archive of the signed size and, where it can be checked, the signed hash |
| `Fetch.FittingIsParsed` | site/js/store.js:98-163 | nothing that fits is turned away: a first body that unpacks to the archive of a tree, of the given size and hash where one is given and can be checked, gives the entries of that tree |
| `Fetch.WrongIsFetchedAgain` | site/js/store.js:133-152 | a first body that unpacks to something else, or to nothing, is fetched again from the network, once |
| `Fetch.StayingIsNotWrong` | site/js/store.js:146-146 | what may stay in the cache is never a body that was found wrong |
| `Fetch.FirstOfFour` | site/js/net.js:64-103 | of four answers the first whole body counts, and with none among them there is none |
| `Fetch.HashedIsTheTree` | site/js/store.js:77-163 | with a hash that only one serialised tree has, what is fetched always parses, and is the entries of that tree |
| `Fetch.MalformedForeverIff` | site/js/store.js:98-163 | a fetch ends on a cached body for not parsing, whatever the network offers, if and only if the first decode passes and does not parse; nothing evicts it, so every later visit ends there too |
| `Fetch.EmptyBodyIsMalformed` | site/js/store.js:138-163 | there are such bodies: an uncompressed empty one under a narinfo without size and hash |
| `Views.VouchedIsParsed` | site/js/store.js:77-140 | from a signature to the bytes: with a signature that a configured key vouches for, and keys that sign only what was published, the walk follows published references, and what is parsed is an archive of the published size and, where it can be checked, the published hash |
| `Views.WrittenIsSeen` | site/js/closure.js:31-46 | what the walk, the download and the signature check see of written lines: compression, URL under the cache, size, hash, references |
| `Form.DecodeEncode` | site/js/url.js:57-77 | decoding undoes form encoding, whatever characters the printer leaves alone, as long as they are not the ones with a meaning |
| `Form.ParseSerialise` | site/js/url.js:75-76 | a printed parameter list is read back, whichever of the two printers printed it |
| `Url.WriteUrl` | site/js/url.js:57-77 | the loops append the parameters of the state in order |
| `Url.ReadIsReadable` | site/js/url.js:23-52 | what reading a link can give at all |
| `Url.CommasSplit` | site/js/url.js:26-45 | a comma in a value does what a second value does, and nothing between two commas is nothing |
| `Url.ByHandIsRead` | site/js/url.js:23-52 | a link written by hand, commas in its values, is read as what it says; only `boot=1` starts by itself |
| `Url.CacheIsTwoWords` | site/js/url.js:47-50 | a cache is a URL and a key, whatever blanks are around them; a value of one word or of three is dropped |
| `Url.RoundTripIff` | site/js/url.js:23-77 | a state that reading can give comes back from its own link if and only if every cache URL in it is non-empty and ends in no slash |
| `Url.SlashIsLost` | site/js/url.js:23-77 | every readable state is read from some link, and one with a cache URL that is empty or ends in a slash is not read from the link written for it: such states do occur |
| `Url.LinkComesBack` | tools/share-link.py:411-426 | the page reads the link of the command-line tool back: its paths, one cache entry per key, and the boot flag |
| `Url.NormalizedIsNormal` | tools/share-link.py:293-304 | a normalised cache URL is one that comes back |
| `NixBase32.DecodeNixBase32` | site/js/hash.js:26-45 | a text of the right length decodes if and only if it is over the alphabet and its value fits, and then to that value; of an overlong text only the digits that start within the bytes are kept |
| `NixBase32.PourDigit` | site/js/hash.js:32-42 | one digit or-ed in is the specification step; a carry past the last byte is refused |
| `NixBase32.PouredValue` | site/js/hash.js:32-38 | or-ing a digit in adds its place value |
| `NixBase32.AlphabetIs` | site/js/hash.js:19-19 | the alphabet is the digits and the letters but for e, o, t and u |
| `NixBase32.DecodeOfEncode` | site/js/hash.js:23-45 | decoding undoes the standard encoding |
| `NixBase32.EncodeOfDecode` | site/js/hash.js:23-45 | what decodes reads little-endian as the value of the text, and is encoded by that text |
| `NixBase32.DecodeIsInjective` | site/js/hash.js:26-45 | no two texts of the right length decode alike |
| `NixBase32.OverlongDecodesRightIff` | site/js/hash.js:26-45 | a text over the alphabet, of any length, decodes to its value, or is refused for being too large, if and only if what starts past the bytes is all zeroes, or leaves a carry, or what is left does not fit; in every other case digits are lost |
| `Agent.LastMatch` | site/js/agent.js:62-68 | the loop over non-overlapping matches finds the last one |
| `Agent.EndLineMeans` | site/js/agent.js:57-58 | a closing line is the marker, a colon, digits, any carriage returns and a line feed, at the start of a line: that and nothing else |
| `Chains.LastLineIsReadIffOdd` | site/js/agent.js:57-68 | of lines whose match takes the line feed before them, the last is matched if and only if the unbroken run it ends is odd in number; else the one before it is |
| `Agent.OwnLineIsReadIffOdd` | site/js/agent.js:91-94 | the run's own closing line is the one read if and only if the unbroken run of closing lines it ends is odd in number |
| `Agent.SwallowedStatus` | site/js/agent.js:57-68 | whatever was said before it without a closing line, an output that ends with a closing line of its own, its line feed missing, makes that status be read instead of the status of the run |
| `Agent.StatusNeverReadShort` | site/js/agent.js:51-58 | on every prefix of a transcript the status is unknown or whole, never a truncated number |
| `Agent.OutputIsBetween` | site/js/agent.js:107-116 | the output is what lies between the first opening line and the closing line that is read, trimmed and normalised |
| `Agent.OutputIsBefore` | site/js/agent.js:107-116 | with no opening line in front of the closing line that is read, it is everything in front of that |
| `Transcript.LastIsLastShown` | site/js/agent.js:62-68 | of what the console has kept, the last closing line is the last of all, if it is kept; if not, only something right at the cut can be read as one |
| `Transcript.ShownStatus` | site/js/agent.js:91-94 | the status read from what the console has kept of a run with one closing line: that of the line, unless it is gone or comes right behind something at the cut that reads like one |
| `Transcript.ShownOutput` | site/js/agent.js:107-116 | the output read from what the console has kept: all of it while the opening line is kept, then what is left of it |
| `Agent.CollapseUndoesCooking` | site/js/agent.js:103-115 | normalising line endings undoes what the terminal does to them if and only if the text had no CR LF of its own; lone carriage returns are kept |
| `Agent.CollapseOfCooked` | site/js/agent.js:103-115 | normalising a text the terminal has passed on is normalising the text |
| `Agent.TrimMeans` | site/js/agent.js:115-115 | trimming takes blanks from both ends until there is none, and nothing else |
| `Agent.OutputComesBack` | site/js/agent.js:96-116 | what a command printed comes back trimmed, with its line endings normalised; as it was, but for blanks around it, if and only if no line of what is left ended in CR LF |
| `Shell.QuotedIsRead` | site/js/agent.js:81-81 | POSIX quote removal of the quoted command gives the command, whatever is in it |
| `Shell.CommandArrivesWhole` | site/js/agent.js:77-87 | for every marker without a single quote, the typed line is three commands to the shell: the halves of the marker, put between quotes as they are, `sh -c` with the command as its one argument, the halves and the status |
| `Shell.LineHidesMarker` | site/js/agent.js:70-76 | the marker occurs in the typed line only if it occurs in the command |
| `Shell.EchoIsNoFence` | site/js/agent.js:16-30 | however the terminal breaks the echo, no line of it opens or closes the run, unless the command has the marker in it |
| `Driver.LinePrints` | site/js/agent.js:77-87 | running the typed line prints the opening line, what the command prints, and the closing line with the command's status, each behind a line feed |
| `Driver.RunArrives` | site/js/agent.js:77-87 | what the page gets is the echo and then that, as the terminal passes it on |
| `Driver.RunComesBack` | site/js/agent.js:51-116 | from end to end, for every command without the marker in it and however its echo is broken: the status and the output, trimmed and normalised, are what is read, if and only if the unbroken run of closing lines that the run's own ends is odd in number; and so they are when no whole line of the output closes the run |
| `Console.Watcher.WaitFor` | site/js/boot.js:532-538 | a marker in sight is answered at once, any other waits |
| `Console.Watcher.Write` | site/js/boot.js:503-520 | the transcript is the last 65536 characters; whoever's marker is in it is answered; if every write fits a marker, that is the very write that completes its first occurrence |
| `Console.Watcher.TimeOut` | site/js/boot.js:538-544 | a waiter that gives up is gone and nobody else is |
| `Console.AnswerWaiters` | site/js/boot.js:514-520 | those whose marker is in the transcript are answered, the others keep waiting in their order |
| `Console.WriteShows` | site/js/boot.js:509-516 | a marker not in sight comes into sight exactly when a write completes an occurrence it does not also cut off |
| `Console.ShortWriteShows` | site/js/boot.js:509-516 | for a write of at most 65536 - marker length + 1 characters: exactly when it completes one |
| `Console.LongWriteHides` | site/js/boot.js:509-511 | a longer one can complete a marker and cut it off |
| `Cputest.RefPdep` | nix/probe/cputest.c:103-118 | bit i of the result is the bit of x whose place is the number of mask bits below i; no shift count reaches 64 |
| `Cputest.RefPext` | nix/probe/cputest.c:120-136 | the bits under the mask, gathered low; no shift count reaches 64 |
| `Cputest.PextOfPdep` | nix/probe/cputest.c:120-136 | gathering what was scattered gives x modulo 2 to the number of mask bits |
| `Cputest.PdepOfPext` | nix/probe/cputest.c:120-136 | scattering what was gathered gives x and mask |
| `Cputest.RefPopcount` | nix/probe/cputest.c:94-101 | the number of set bits |
| `Cputest.RefCtz` | nix/probe/cputest.c:68-79 | the number of zeros below the lowest set bit, 64 for zero |
| `Cputest.RefClz` | nix/probe/cputest.c:81-92 | the number of zeros above the highest set bit, 64 for zero |
| `Cputest.RefBswap` | nix/probe/cputest.c:241-248 | byte j of the result is byte 7 - j |
| `Cputest.AdcFlag` | nix/probe/cputest.c:682-684 | the carry expression of the probe is the true carry out, for all operands |
| `Cputest.SbbFlag` | nix/probe/cputest.c:685-686 | the borrow expression of the probe is the true borrow, for all operands |
| `Crc32c.RefCrc32c` | nix/probe/cputest.c:451-460 | the bytewise loop is the bitwise register, and keeps a 32-bit seed within 32 bits |
| `Crc32c.ShiftsAreFeeds` | nix/probe/cputest.c:454-457 | xor-ing eight bits in and shifting them out is feeding them one by one |
| `Crc32c.CrcIsLinear` | nix/probe/cputest.c:451-460 | linear over GF(2) in seed and word together |
| `Crc32c.CrcIsRemainder` | nix/probe/cputest.c:447-460 | for a 32-bit seed the result is the remainder, and the only one, of the data times x^32, seed added to its first 32 bits, by the Castagnoli polynomial |
| `Crc32c.PolyIsTheConstant` | nix/probe/cputest.c:456-456 | the constant is that polynomial, reflected |
| `Versions.CompareVersionsLoop` | site/js/multiverse.js:168-195 | the index loop computes the recursive comparison, of components that `Versions.ComponentsSplit` and `Versions.OneComponent` determine |
| `Versions.ComponentsSplit` | site/js/multiverse.js:169-171 | each of dot, dash, underscore and plus splits a version, wherever it stands |
| `Versions.OneComponent` | site/js/multiverse.js:169-171 | what has none of the four in it is one component |
| `Versions.NextIntegersDecide` | site/js/multiverse.js:168-195 | versions that are alike up to a separator, whichever it is, and go on with integers compare as those integers, and if these are the same number as what is behind them |
| `Versions.LessMeans` | site/js/multiverse.js:190-192 | components that are not both integers compare by the first character they differ in, a beginning below what it begins |
| `Versions.CompareIsAntisymmetric` | site/js/multiverse.js:168-195 | swapping the arguments always flips the sign |
| `Versions.OneIsTransitiveIff` | site/js/multiverse.js:183-193 | on a set of components comparing is transitive if and only if no text of it stands between two of its integers the other way round |
| `Versions.CompareIsTransitiveIff` | site/js/multiverse.js:168-195 | on versions with given components at each position comparing is transitive, with antisymmetry a total preorder, if and only if no position that is reached has such a text |
| `Versions.UniformIsOrderly` | site/js/multiverse.js:168-195 | a total preorder on versions whose positions are uniformly numeric or uniformly not |
| `Versions.CompareIsCyclic` | site/js/multiverse.js:183-192 | in general it is not transitive: 9 below 10 below 1a below 9, for 1a stands between 9 and 10 the other way round |
| `Versions.ShorterIsSmaller` | site/js/multiverse.js:174-181 | a version that another one extends is below it |
| `Versions.SortKeeps` | site/js/multiverse.js:150-150 | sorting loses and repeats no row |
| `Versions.SortSorts` | site/js/multiverse.js:150-150 | on versions that compare transitively, newest first |
| `Versions.MergeMeans` | site/js/multiverse.js:138-151 | one row for each version either index names, with its store path if it has one, none twice |
| `Versions.MergeIsSorted` | site/js/multiverse.js:146-151 | on versions that compare transitively, newest first |
| `Versions.Find` | site/js/ranges.js:84-85 | the loop finds the first bootable match in the list |
| `Versions.FirstWantedMeans` | site/js/ranges.js:83-85 | there is none exactly when nothing can boot and match, and in a list with the newest first it is a newest match |
| `Versions.PrefixMatches` | site/js/ranges.js:46-49 | without an operator, and with an equals sign, a pattern is a prefix of whole components, with or without a star at its end |
| `Versions.RangeMatches` | site/js/ranges.js:52-64 | an operator makes it a bound, and integers behind a common front are compared as integers |
| `Versions.ResolveSpecs` | site/js/ranges.js:72-95 | each spec adds its first match to what is resolved, or a problem that says whether the attribute is unknown, in the order of the specs |
| `Versions.ResolvedIsMaximum` | site/js/ranges.js:70-92 | a spec is a problem exactly when nothing the index has can boot and match; an attribute the index lacks included; otherwise, on versions that compare transitively, what is resolved is a maximum among all that can |
| `Substituters.FingerprintInjective` | site/js/substituters.js:61-66 | a fingerprint determines path, hash, size and references |
| `Substituters.FingerprintIs` | site/js/substituters.js:61-66 | the signed text: a one, the path, the hash, the size in decimal, and every reference as a store path |
| `Substituters.Verify` | site/js/substituters.js:72-112 | true exactly when the first line that says anything is a good signature under a configured key of its name, over this fingerprint; false exactly when no line says anything |
| `Substituters.OneLineIsChecked` | site/js/substituters.js:81-104 | a line is the name of a key, a colon and the signature, which that key's own part checks for the signed text |
| `Substituters.FindsOutIffOneKeyEach` | site/js/substituters.js:68-112 | unless a line could not be checked first, the answer says whether some configured key signed, for every narinfo and whatever the checks say, if and only if no two keys are configured under one name |
| `Substituters.SecondKeyIsNotTried` | site/js/substituters.js:83-86 | of two keys of one name only the first is tried: what the other one signed counts as signed by nobody |
| `Substituters.VouchedIsPublished` | site/js/substituters.js:61-112 | with configured keys that sign only what their owner published, and whatever other keys there are, what is verified was published, field by field |
| `Substituters.FetchNarinfo` | site/js/substituters.js:126-149 | the first cache that holds the path, unreachable ones skipped; not found exactly when all answered that they do not |
| `Substituters.HoldsPath` | site/js/substituters.js:165-183 | true exactly when a cache holds it, unknown exactly when none could be asked |
| `Substituters.OneAnswerIsEnough` | site/js/substituters.js:165-183 | false even though another cache could not be asked |

## Left out

- Session.Page.Boot: a boot in which one download fails while another archive cannot be written counts as a failed download; it leaves nothing either way.
- Share.StoreShare.Write: an entry path with an empty, `.` or `..` component in its middle, which only a name containing a slash can give, has no parent directory here, while emscripten would resolve it; so does a path through a symlink, and writing a file over a symlink counts as a failure.
- Nar.ParseNar: lengths are exact integers where the original uses doubles, equal below 2^53; tokens are compared as bytes, which equals comparing their UTF-8 decoding when that is injective.
- NixBase32.DecodeNixBase32: `parseHash`, `decodeHex` and base64 are not modelled; `parseInt` accepts a valid leading digit, so nothing is claimed about malformed hex.
- Versions.CompareVersionsLoop: what `Number` makes of a component is a parameter; sorting is a stable insertion sort, equal to the built-in one wherever the order is a total preorder. `parseSpecs` is not modelled, specs come parsed.
- Url.RoundTripIff: text is its UTF-8 bytes, and white space is the ASCII kind only.
- Agent.OutputComesBack: blanks around an output are the ASCII kind only.
- Driver.LinePrints: of printf only line feeds written as escapes and string conversions are modelled, and of the shell only commands in sequence; the command prints one text and ends with one status.
- Shell.CommandArrivesWhole: double quotes and command substitution are not lexed; the line has none outside single quotes.
- Substituters.Verify: decoding keys and signatures and checking them is one abstract function that can also throw.
- Views.VouchedIsParsed: a size that is no number is not modelled, and a narinfo without a hash is left to `Fetch`.
- Unbzip2.Unbzip2: the decoder is a function of the pieces it has been handed.
- Fetch.FetchNar: cache reads do not throw and deletes succeed; delays, timeouts and log lines are not modelled; that compressed sizes drift is only logged and so left out.
- Pool.EveryFetch: downloading is one step; the answer of an item does not depend on the schedule.
- Real fetch, Cache API, Web Crypto, the xz and zstd decoders, QEMU, the guest and the snapshot: parameters or not modelled.
- The page's widgets, progress rows, terminal, analytics, search, version picker and WebMCP tools: thin state.
- `is_store_path`, `is_placeholder` and the nix commands of tools/share-link.py: pattern matching and subprocesses.
- The instructions the CPU probe times and compares: inline assembly.
