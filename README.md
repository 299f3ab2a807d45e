# imagor request pipeline and file store, modelled in Dafny

This project models the core of imagor, an HTTP image server. A request goes through these steps:

1. An authorization gate checks the URL signature, unless both the server and the request are marked unsafe.
2. A chain of loaders is tried in order to fetch the source image. The first success ends it. Non-empty bytes from failing loaders are kept as a fallback. A trailing `ErrPass` becomes `ErrNotFound`.
3. Each configured storage is asked to save the loaded image.
4. A chain of processors runs. The first success wins. An `ErrPass` can hand replacement bytes to the next processor, and other errors are recorded while the chain goes on.
5. The response is shaped as JSON, bytes, a status and headers.

Processor `Startup`/`Shutdown` run in order and stop at the first error.

The local-file store maps an image key to a file path. It escapes `":/"`, applies `path.Clean`, forces one leading slash, refuses keys a blacklist matches (by default, any key containing `"/."`), refuses keys without the path prefix, and joins the rest onto `BaseDir`. Its `Load` and `Save` run against a file system object.

Modules:

- `Base`: bytes and an `Option`.
- `Errors`: the error values, the sentinels `ErrPass`, `ErrNotFound` and `ErrHashMismatch`, and the Pass-to-NotFound rule.
- `Chains`: facts shared by the loader chain, the processor chain and the lifecycle loops: where a chain stops, which buffer survives, and which error is reported.
- `Strconv`: `strconv.Itoa` and its read-back.
- `Paths`: Go's `strings` helpers, `path.Clean`, `filepath.Join` and `filepath.Dir` on Unix. A path is reasoned about through its list of elements.
- `FileStore`: `Key`, `Locate`, and the classes `FileStore` and `FileSystem`.
- `Pipeline`: the outcome of each request step as a value over scripted backends, with the lemmas about those outcomes.
- `Imagor`: the classes `Imagor` and `ResponseWriter`. Each `Imagor` method is proved to produce the matching `Pipeline` outcome; `LoadChain`, `Save`, `Process` and `RunPhase` are the source's loops. `ResponseWriter` records each call in its trace.

Backends are scripted: a loader, storage or processor answers every call with fixed values. Each outcome records the backend calls in order, as a sequence of `Call` values. `ServeHTTP` records the writer calls (`HeaderSet`, `StatusWritten`, `BodyWritten`) on a `ResponseWriter`.

Some functions have bodies that are not part of this model. They are fields of an `Env` value and stay uninterpreted:

- `ParseParams`
- `Params.Verify`
- `WrapError`
- `json.Marshal`
- `http.DetectContentType`

The processor chain keeps the last hard error even when a later processor succeeds (`Pipeline.HardErrorSurvivesSuccess`), and a chain in which every processor passes reports no error (`Pipeline.AllProcessorsPass`).

## Model

| member | source | states |
|---|---|---|
| Errors.PassToNotFound | imagor.go:218-220 | the result is never Pass; any error other than Pass is returned unchanged |
| Chains.FirstNil | imagor.go:193-201 | the index of the first success: every earlier entry failed, and the entry at the index (if any) succeeded |
| Chains.FirstNilIs | imagor.go:198-201 | an index whose entry succeeds after only failures is the one the chain stops at |
| Chains.FirstError | imagor.go:78-82 | the index of the first error: every earlier entry succeeded, and the entry at the index (if any) failed |
| Chains.FirstErrorIs | imagor.go:79-80 | an index whose entry fails after only successes is the one the lifecycle loop stops at |
| Chains.FallbackIsLast | imagor.go:195-197 | the surviving buffer is the initial one when every buffer is empty, and otherwise the last non-empty buffer |
| Chains.FallbackStep | imagor.go:172-176 | one more stage replaces the buffer exactly when its bytes are non-empty |
| Chains.LastFailure | imagor.go:180-182 | the reported error is never Pass |
| Chains.LastFailureIsLast | imagor.go:171-183 | the reported error is nil exactly when no error is hard (non-nil and not Pass), and otherwise the last hard one |
| Chains.LastFailureStep | imagor.go:180-182 | one more stage replaces the reported error exactly when its error is hard |
| Strconv.Itoa | imagor.go:129 | the rendering is a non-empty string of digits, with no leading zero except for 0 itself |
| Strconv.ItoaRoundTrip | imagor.go:136 | reading the rendered Content-Length back as a decimal number gives the length |
| Strconv.ItoaInjective | imagor.go:253 | different lengths are rendered differently |
| Pipeline.ConfigureLoaders | imagor.go:68-70 | after the options, the loaders are the earlier ones followed by every WithLoaders list, in option order |
| Pipeline.ConfigureKeepsTimeout | imagor.go:66-70 | without a WithRequestTimeout option the timeout keeps its value (30 seconds after New) |
| Pipeline.ConfigureAppend | imagor.go:68-70 | applying options in two runs is the same as applying them in one run |
| Pipeline.ChainError | imagor.go:193-220 | before WrapError the chain error is nil exactly when there are no loaders or some loader succeeds; otherwise it is the last loader's error with Pass turned into NotFound |
| Pipeline.ChainStopsAt | imagor.go:198-201 | when loader i is the first to succeed, i+1 loaders are tried and the error is nil |
| Pipeline.ChainExhausted | imagor.go:193-209 | when every loader fails, all are tried, and the error is nil only when there are none |
| Pipeline.LoadOutcome | imagor.go:189-228 | the load's error is nil exactly when the chain error is nil |
| Pipeline.LoadStopsAtFirstSuccess | imagor.go:193-201 | loaders are called in order with the image; the first success ends the chain with a nil error; no later loader is called; one save per storage follows |
| Pipeline.SuccessKeepsFallback | imagor.go:195-200 | a loader that succeeds with empty bytes keeps the last non-empty bytes of an earlier failing loader |
| Pipeline.AllLoadersFail | imagor.go:208-226 | when every loader fails, all are called, nothing is saved, and the error is WrapError of the last loader's error (Pass becomes NotFound) |
| Pipeline.NoLoaders | imagor.go:193-216 | with no loaders the result is empty bytes and no error, and each storage is asked to save the empty buffer |
| Pipeline.LoadCallsSplit | imagor.go:193-216 | a load's calls are the tried loaders, then the saves, which happen only when the chain succeeded and storages exist |
| Pipeline.SavesAfterLoads | imagor.go:210-216 | after the load calls, each storage gets exactly one save, and every save carries the image and the buffer |
| Pipeline.SaveCallsOnce | imagor.go:233-246 | among the save calls, each storage appears exactly once |
| Pipeline.SavesOncePerStorage | imagor.go:210-216 | after a successful chain, each storage gets exactly one Save with the image and the buffer, and there are no other saves; after a failed chain, only loaders are called |
| Pipeline.ProcessOutcome | imagor.go:162-186 | the processor chain never reports Pass |
| Pipeline.ProcessStep | imagor.go:163-183 | a failing processor adds its call with the carried buffer, hands on its bytes only on a non-empty Pass, and replaces the error only when its own error is hard |
| Pipeline.RunningStep | imagor.go:171-183 | one more failing processor adds its call with the carried buffer, hands on the bytes of a non-empty Pass, and records its error only when it is hard |
| Pipeline.ProcessStopsAt | imagor.go:164-170 | the first successful processor supplies the buffer and meta, and the error is the last hard error before it |
| Pipeline.ProcessExhausted | imagor.go:162-186 | when every processor fails, the buffer is the carried one, meta is nil, and the error is the last hard error |
| Pipeline.FirstProcessorWins | imagor.go:164-170 | the first success supplies the final buffer and meta, and no later processor is called |
| Pipeline.PassCarriesBytes | imagor.go:172-176 | the next processor receives the bytes of a Pass that carried some; otherwise it receives the same buffer as the previous one |
| Pipeline.FirstProcessorInput | imagor.go:155-163 | the first processor receives the loaded buffer |
| Pipeline.HardErrorSurvivesSuccess | imagor.go:180-186 | a later success does not clear a hard error recorded earlier: that error is returned with the successful buffer |
| Pipeline.AllProcessorsPass | imagor.go:171-186 | when every processor passes, or there are none, the error and meta are nil, every processor is called, and the buffer is the carried one |
| Pipeline.PassThenSuccessLoads | imagor.go:193-201 | for loaders [Pass, success with b], the result is b with no error, after calls to both |
| Pipeline.TwoPassesNotFound | imagor.go:217-220 | for loaders [Pass, Pass], the error is WrapError(NotFound) |
| Pipeline.PassThenSuccessProcesses | imagor.go:162-176 | for processors [Pass with bytes b1, success], the result is the second one's bytes and meta with no error, and the second one was given b1 |
| Pipeline.DoOutcome | imagor.go:148-158 | Do returns a nil error only for requests that pass the gate |
| Pipeline.GateRejects | imagor.go:148-154 | unless both the server and the request are unsafe, an unverified request gets HashMismatch with no bytes and no meta, and no backend is called |
| Pipeline.LoadFailureSkipsProcessors | imagor.go:155-158 | a failed load's bytes and error are returned with no meta, and no processor is called |
| Pipeline.LoadSuccessFeedsProcessors | imagor.go:155-163 | after a successful load, the load's calls come first and the first processor receives the loaded buffer |
| Pipeline.RootIsServiceInfo | imagor.go:96-103 | the path "/" gets the JSON of name Imagor and version 0.1.0, and no backend is called |
| Pipeline.ServeShape | imagor.go:104-108 | past the root path, the writes are Do's outcome for the parsed request, shaped into a reply |
| Pipeline.MetaRequestGetsJson | imagor.go:110-113 | a meta request whose result has meta is answered with that meta as JSON, even with an error, and with no status |
| Pipeline.ErrorShape | imagor.go:120-134 | an error reply that is not meta JSON is: the content type, then the status, then the bytes if any, else the error as JSON |
| Pipeline.PassShape | imagor.go:120-126 | a reply to an error that WrapError leaves as Pass contains status 404 and no other status |
| Pipeline.PassReportedAsNotFound | imagor.go:120-126 | an error that WrapError leaves as Pass is reported with status 404, and no other status is written |
| Pipeline.ErrorWithBytesWritesThem | imagor.go:115-131 | when an error comes with bytes, the content type and the error's status come first, then a Content-Length that reads back as their length, then the bytes |
| Pipeline.BodyReplyFramed | imagor.go:136-137 | a body after header and status calls makes a reply whose single write is last, right after its Content-Length |
| Pipeline.ShapeFramed | imagor.go:109-138 | every reply to an outcome writes its body once and last, right after its Content-Length |
| Pipeline.EveryReplyFramed | imagor.go:95-139 | on every path, the reply writes its body exactly once and last, right after a Content-Length that reads back as the body's length |
| Pipeline.NoStatusShape | imagor.go:120-137 | a reply to an outcome without error writes no status |
| Pipeline.StatusOnlyOnError | imagor.go:120-137 | a request without an error writes no explicit status |
| Pipeline.LifecycleOutcome | imagor.go:77-93 | processors are called in order up to the first error, which is returned; no later one is called; without an error all are called and the result is nil |
| Imagor.ResponseWriter.SetHeader | imagor.go:115 | the writer records exactly one header call after the earlier ones |
| Imagor.ResponseWriter.WriteHeader | imagor.go:126 | the writer records exactly one status call after the earlier ones |
| Imagor.ResponseWriter.Write | imagor.go:130 | the writer records exactly one body write after the earlier ones |
| Imagor.ResJson | imagor.go:250-256 | writes exactly the JSON content type, the Content-Length of the encoding, and the encoding |
| Imagor.Respond | imagor.go:109-138 | the writer gets exactly the reply calls for Do's result: the meta JSON for a meta request with meta, otherwise the content type followed by the rest of the reply |
| Imagor.RespondBody | imagor.go:120-137 | without error: Content-Length and the bytes; with an error: its status, then the bytes if any, else the error as JSON |
| Imagor.Imagor.New | imagor.go:61-75 | the fields are the defaults with the options applied in order: 30 second timeout, a cache of 1000 items and 1<<28 cost with a one minute TTL, and a one minute cache TTL |
| Imagor.Imagor.Apply | imagor.go:68-70 | one option changes exactly the field it names |
| Imagor.Imagor.LoadChain | imagor.go:193-209 | calls the loaders up to the first success; returns the last non-empty bytes and a nil error exactly when the chain error is nil |
| Imagor.Imagor.Load | imagor.go:189-228 | returns exactly the load outcome: buffer, wrapped error, loader calls, and then the saves |
| Imagor.Imagor.Save | imagor.go:230-248 | one Save per storage, in order, with the image and the buffer |
| Imagor.Imagor.Process | imagor.go:162-186 | returns exactly the processor chain's outcome |
| Imagor.Imagor.Do | imagor.go:141-187 | returns exactly the outcome of the gate, the load and the processors |
| Imagor.Imagor.ServeHTTP | imagor.go:95-139 | the writer gets exactly the reply for the path, and the backend calls are Do's (none for "/") |
| Imagor.Imagor.RunPhase | imagor.go:77-93 | the lifecycle outcome for the phase |
| Imagor.Imagor.Startup | imagor.go:77-84 | the lifecycle outcome of processor startup |
| Imagor.Imagor.Shutdown | imagor.go:86-93 | the lifecycle outcome of processor shutdown |
| Paths.TrimPrefix | store/filestore/filestore.go:36-38 | with the prefix present, prefix plus result is the input; without it, the input is returned unchanged |
| Paths.ContainsInSuffix | store/filestore/filestore.go:40 | a needle found in a suffix is found in the whole string |
| Paths.EscapeScheme | store/filestore/filestore.go:37 | a non-empty input gives a non-empty result that starts with the same character or with '%' |
| Paths.EscapeSchemeRemovesAll | store/filestore/filestore.go:37 | no ":/" is left after the replacement |
| Paths.EscapeSchemeKeepsOthers | store/filestore/filestore.go:37 | a string without ":/" is unchanged |
| Paths.EscapeSchemeAppend | store/filestore/filestore.go:37 | a colon-free front part is copied unchanged |
| Paths.Split | store/filestore/filestore.go:36 | splitting on '/' gives at least one segment |
| Paths.SplitJoin | store/filestore/filestore.go:36 | splitting segments joined with '/' gives the segments back |
| Paths.Significant | store/filestore/filestore.go:36 | the kept elements come from the segments and are neither empty nor "." |
| Paths.ElementsJoin | store/filestore/filestore.go:36 | plain elements joined, with or without a leading slash, read back as the same elements |
| Paths.RootKeepsElements | store/filestore/filestore.go:36 | a leading slash adds no element |
| Paths.ResolveAppend | store/filestore/filestore.go:36 | resolving ".." over a concatenation is resolving over each part in turn |
| Paths.ResolveNoParent | store/filestore/filestore.go:36 | elements without ".." are appended unchanged |
| Paths.CleanElements | store/filestore/filestore.go:36 | the cleaned path's elements are the resolved elements, they are plain, and cleaning keeps whether the path is rooted |
| Paths.CleanOfPlain | store/filestore/filestore.go:36 | a path of plain elements without "..", relative or rooted, is already clean |
| Paths.ResolveNormal | store/filestore/filestore.go:36 | resolving gives plain elements with every ".." in front, and none under a root |
| Paths.ResolveOfNormal | store/filestore/filestore.go:36 | a list already in resolved form is left unchanged |
| Paths.CleanIdempotent | store/filestore/filestore.go:36 | cleaning a cleaned path changes nothing |
| Paths.JoinWithoutParent | store/filestore/filestore.go:47 | joining a rest without ".." onto a non-empty base keeps the base's root, and its elements are the cleaned base's followed by the rest's |
| Paths.LastSlash | store/filestore/filestore.go:70 | the index is of a slash, or -1, and no slash comes after it |
| Paths.DotFreeElements | store/filestore/filestore.go:15 | a string without "/." that does not start with '.' has no element starting with a dot |
| FileStore.Key | store/filestore/filestore.go:36-38 | the normalised key always begins with '/' |
| FileStore.KeyHasNoSchemeSeparator | store/filestore/filestore.go:36-38 | no key contains ":/": the replacement removes every one before cleaning, and cleaning cannot create one |
| FileStore.Locate | store/filestore/filestore.go:35-48 | a path is produced exactly when no blacklist matches the key and the key starts with PathPrefix |
| FileStore.MatchesAny | store/filestore/filestore.go:39-43 | the loop finds a match exactly when some blacklist matches the key |
| FileStore.FileStore.New | store/filestore/filestore.go:23-33 | BaseDir as given, PathPrefix "/" unless an option sets it, and the dot-file blacklist followed by the ones the options add |
| FileStore.FileStore.Apply | store/filestore/filestore.go:29-31 | an option sets the prefix or appends a blacklist, and nothing else |
| FileStore.FileStore.Path | store/filestore/filestore.go:35-48 | ok exactly when the key is taken, and then the path is the located one; otherwise "" and false |
| FileStore.FileStore.Load | store/filestore/filestore.go:50-60 | Pass for a refused key; NotFound for a missing file; the file's contents; a read error for a directory |
| FileStore.FileStore.Save | store/filestore/filestore.go:62-82 | a missing BaseDir gives the stat error, even for a refused key; then Pass for a refused key; then the mkdir and create errors; otherwise the file holds buf; the file system changes only as stated |
| FileStore.SaveThenLoad | store/filestore/filestore.go:50-82 | after a successful Save of buf, Load of the same image returns buf with no error |
| FileStore.SchemeKey | store/filestore/filestore.go:36-38 | "scheme://a/b" with plain parts is stored under "/scheme%3A/a/b" |
| FileStore.SchemeKeyExample | store/filestore/filestore.go:36-38 | http://h/x becomes /http%3A/h/x |
| FileStore.EmptyKeyExample | store/filestore/filestore.go:36-38 | the empty image becomes "/." |
| FileStore.ParentKeyExample | store/filestore/filestore.go:36-38 | the relative "../a" becomes "/../a" |
| FileStore.PlainKey | store/filestore/filestore.go:36-38 | an image of plain elements without colons or ".." keeps its path as key, behind one slash |
| FileStore.BlacklistedRefused | store/filestore/filestore.go:39-43 | a key some blacklist matches is refused |
| FileStore.DotKeysRefused | store/filestore/filestore.go:15 | under the dot-file rule, the empty image and "../a" are refused |
| FileStore.StaysUnderBaseDir | store/filestore/filestore.go:44-47 | under the dot-file rule and a prefix ending in '/', an accepted path keeps BaseDir's root; its elements are the cleaned BaseDir's followed by plain elements that do not start with a dot |
| FileStore.PrefixWithoutSlashEscapes | store/filestore/filestore.go:44-47 | with PathPrefix "/a" the image "a../x" gets the key "/a../x", passes the dot-file rule, and is mapped to "/x", outside BaseDir "/data" |

## Left out

- The hybridcache result cache (imagor.go:64, imagor.go:190-191) is an external library for call suppression and TTL. `load` runs the loader chain directly. New's cache settings are kept only as a configuration value.
- The goroutines in `save` (imagor.go:239-246) are modelled as Save calls recorded in storage order. Their real order is concurrent. A storage's Save error is only logged, so it has no effect here.
- Contexts, `context.WithTimeout`, `DetachContext` and request deadlines (imagor.go:142-147, imagor.go:234-238) are not modelled. When `RequestTimeout <= 0`, `cancel` stays nil and the goroutine's deferred `cancel()` would panic (imagor.go:234-240). This is not modelled.
- zap logging and the Debug flag's effect (debug lines only) are not modelled. `Debug` is kept as a field.
- The load callback given to processors (imagor.go:159-161) is not modelled: scripted processors do not call it.
- Loaders are scripted per loader, so each gives the same answer for every image.
- `errors.Is(err, context.Canceled)` is read as the error being the `Canceled` value. A wrapped cancellation is not distinguished.
- `ParseParams`, `Params.Verify`/`Hash`, `WrapError`, `json.Marshal`, `http.DetectContentType` and `r.URL.EscapedPath()` are parameters. The request path is given directly, and WrapError of nil is taken to be nil.
- The Error/Meta/Params definitions and the option constructors are not part of this model. The following are assumed:
  - the sentinels' messages and codes (400, 404, 403);
  - that list options append and scalar options assign;
  - that there is no logger option.
- net/http's rule that headers set after `WriteHeader` are ignored is not modelled. The reply is the sequence of writer calls.
- Regular-expression blacklists are predicates on the key. Only the default `/\.` is a concrete rule (the key contains "/.").
- The file system does not model every OS call:
  - Only the leaf directory of the target is added; `os.MkdirAll`'s parent directories are not.
  - Each failing call has one representative error.
  - Errors from `Write` and `Close` are not modelled.
  - An `os.Open` failure other than not-exist is not modelled.
  - A path that names a directory opens, and then the read fails (`io.ReadAll` on a directory); that read failure is modelled.
- config/flags.go is not part of this model.
- FileStore.StaysUnderBaseDir: requires PathPrefix to end with '/' (the default "/" does) and BaseDir to be non-empty. With an empty BaseDir, `filepath.Join` drops the empty argument (store/filestore/filestore.go:47). The result is then the cleaned rest alone, relative to the process's working directory, so there is no directory for it to stay under. `FileStore.PrefixWithoutSlashEscapes` shows that with a prefix such as "/a" an accepted image can be mapped outside BaseDir.
- Paths.Clean is modelled on element lists and has no trailing slash. A Unix `filepath.Join`, `filepath.Dir` and `path.Clean` agree on the inputs used here.
