# wallutils: the Xfce4 backend and the string helpers, in Dafny

This project models two parts of the wallutils Go package, which sets the
desktop wallpaper under several window managers and desktop environments:

- **The Xfce4 backend** (`xfce4.go`). An `Xfce4` value holds a fill mode
  (`""` means the package default) and a verbose flag. `SetWallpaper` works
  in this order:
  1. It checks that the image exists.
  2. It lists the properties of the `xfce4-desktop` channel with
     `xfconf-query`.
  3. It maps the effective mode through Xfce's table (Auto=0, Centered=1,
     Tiled=2, Stretched=3, Scaled=4, Zoomed=5). A mode one byte long, that
     is a single ASCII character, is used as it is.
  4. It walks the listed properties in order. Each property ending in
     `/image-style` is set to the code. Each property ending in
     `/last-image` is set to the image path.
  5. It stops at the first set command that fails: it exits non-zero, or
     it cannot be started at all. A failed listing query is not an error;
     its output counts as empty.
- **The helpers of `utils.go`**: `has`, `unique`, `abs`, `firstname`,
  `CommonPrefix`, `CommonSuffix`, `Meat` and `expandUser`.

Files:

- `wrappers.dfy`: `Option`.
- `gostd.dfy`: the Go library functions the core calls. These are
  `strings.HasPrefix`, `strings.HasSuffix`, `strings.Index`,
  `strings.Replace` with n = 1, `strings.Split`, `strings.Join` and
  `filepath.Ext`, and `len` on a string, which counts the bytes of its UTF-8
  encoding.
- `exec.dfy`: the command runner. `run` and `output` become methods of a
  `Runner` object. It appends every invocation to its `log` and answers from
  a script: the listing that `output` returns, and the outcome of each `run`
  in turn. Its `runs` field counts the runs so far, which is the index of
  the next outcome in the script.
- `utils.dfy`: the helpers. Go loops are methods with loop invariants. The
  one-expression helpers are functions.
- `xfce4.dfy`: the `Xfce4` class with its methods, and `Expected`. `Expected`
  is a function that states, as a value, the error `SetWallpaper` returns
  and the invocations it issues. `SetWallpaper` is proved to follow it, and
  the behavioural properties are lemmas about `Expected`.

The outside world enters as parameters:

- whether the image exists;
- the package's `defaultMode`;
- the `Runner`, which holds the listing and the run outcomes.

## Model

| member | source | states |
|---|---|---|
| `Xfce4Backend.Xfce4.constructor` | xfce4.go:12-15 | A new backend has no mode and is not verbose, as Go's zero value. |
| `Xfce4Backend.Xfce4.Name` | xfce4.go:18-20 | The name is always "Xfce4". |
| `Xfce4Backend.Xfce4.SetMode` | xfce4.go:33-35 | Stores the mode and leaves the verbose flag unchanged. |
| `Xfce4Backend.Xfce4.SetVerbose` | xfce4.go:39-41 | Stores the verbose flag and leaves the mode unchanged. |
| `Xfce4Backend.Xfce4.SetWallpaper` | xfce4.go:45-101 | The error returned and the invocations appended to the runner's log are exactly those of `Expected` for the stored mode and flag. The run counter advances by the number of set commands issued. The backend's fields do not change. |
| `Xfce4Backend.Xfce4.SetProperties` | xfce4.go:87-100 | The loop over the properties appends the planned set commands up to and including the first that fails, and returns that failure. It appends all of them and returns no error when none fails. The run counter advances by the number of commands appended. |
| `Xfce4Backend.Xfce4.ApplyProperty` | xfce4.go:89-98 | One pass of the loop body: the property's set commands, stopping at the first failure. |
| `Xfce4Backend.Xfce4.SetIf` | xfce4.go:89-93 | A guarded set command is issued only when its guard holds. It reports a failure exactly when it was issued and failed (a non-zero exit, or it could not be started). |
| `Xfce4Backend.EffectiveMode` | xfce4.go:57-60 | The stored mode when it is non-empty, otherwise the default. |
| `Xfce4Backend.FillMode` | xfce4.go:62-85 | A mode one byte long, that is a single ASCII character, is its own code. A single non-ASCII character is longer than one byte and has no code. Otherwise a code exists exactly for the names of the table, and it is one of "0".."5". |
| `Xfce4Backend.ModeTableFirstCodes` | xfce4.go:71-76 | auto→0, center/centered→1, tile/tiled→2. |
| `Xfce4Backend.ModeTableLastCodes` | xfce4.go:69-80 | stretch/stretched→3, scale/scaled/fit/fill→4, zoom/zoomed/crop/cropped→5. |
| `Xfce4Backend.ModeTableOthers` | xfce4.go:64-83 | "3" and even "x" pass through as codes. "sideways" has none, and neither has "é", which is two bytes long. |
| `Xfce4Backend.PropertyCallsAtMostOne` | xfce4.go:89-98 | `PropertyCalls`, the loop body's commands for one property, is at most one set command. There is one exactly when the property ends in "/image-style" or "/last-image", and it sets the property to the code or to the image path. |
| `Xfce4Backend.StyleAndImageExclusive` | xfce4.go:89-98 | No property name ends in both "/image-style" and "/last-image", so at most one set command is issued per property. |
| `Xfce4Backend.StylePropertyCalls` | xfce4.go:89-93 | A property ending in "/image-style" gets exactly one set command, to the mode code. |
| `Xfce4Backend.ImagePropertyCalls` | xfce4.go:94-98 | A property ending in "/last-image" gets exactly one set command, to the image path unchanged. |
| `Xfce4Backend.SetCallsAppend` | xfce4.go:87-99 | The planned set commands of a concatenation of listings are those of the parts, in order. |
| `Xfce4Backend.SetCallsStep` | xfce4.go:87-99 | Each property adds its own set commands after those of the properties before it. |
| `Xfce4Backend.SetCallsPrefix` | xfce4.go:87-99 | The set commands for the first i properties are a prefix of the set commands for all of them. |
| `Xfce4Backend.Tagged` | xfce4.go:89-94 | The properties with either suffix are exactly those listed with one, in listing order. |
| `Xfce4Backend.SetCallsMatchTagged` | xfce4.go:87-100 | `SetCalls`, the loop's planned commands, against the properties it tags: the set commands correspond one-to-one, in order, to the tagged properties. Each sets a style property to the code and an image property to the path; untagged properties get none. |
| `Xfce4Backend.FirstFailure` | xfce4.go:90-97 | Every run before the index it returns succeeds. The run at that index fails, unless the index is past the end. |
| `Xfce4Backend.FirstFailureAt` | xfce4.go:90-97 | A failing run preceded only by succeeding runs is the first failure. |
| `Xfce4Backend.FirstFailureNone` | xfce4.go:90-97 | When no run fails, all planned commands are issued. |
| `Xfce4Backend.Expected` | xfce4.go:45-101 | SetWallpaper as a value. It issues nothing exactly when the image is missing, and otherwise starts with the listing query. No error means the image existed and the mode had a code. A failed set command is the last invocation issued, after the query. |
| `Xfce4Backend.MissingImageIssuesNothing` | xfce4.go:46-48 | A missing image returns `NoSuchFile` and issues nothing, not even the listing query. |
| `Xfce4Backend.InvalidModeIssuesOnlyTheQuery` | xfce4.go:51-84 | A mode outside the table that is not one byte long returns `InvalidMode`, naming the stored mode. The call issues only the listing query and no set command. |
| `Xfce4Backend.SuccessSetsEveryTaggedProperty` | xfce4.go:87-100 | On success the image existed and the mode had a code. The invocations are the query followed by one set per tagged property, in listing order, with the code or the unchanged path. Every one of those set commands succeeded. |
| `Xfce4Backend.AllSetsSucceedIsSuccess` | xfce4.go:87-100 | Conversely, with the image present and a mode that has a code, the call returns no error when every planned set command succeeds, for every listing. |
| `Xfce4Backend.FailedSetStopsTheCall` | xfce4.go:90-97 | When the k-th set command fails, that failure is returned after the query and exactly k set commands. Nothing is undone. |
| `Xfce4Backend.EmptyListingSetsNothing` | xfce4.go:51-54 | An empty listing, including a failed query, splits into [""]. With the image present and a mode that has a code, the call then succeeds after the query alone, and the "no properties" error is never returned. |
| `Xfce4Backend.MonitorCalls` | xfce4.go:87-99 | A monitor's two properties give the style set to the code, then the image set to the path. |
| `Xfce4Backend.TwoMonitorsListing` | xfce4.go:51 | A listing printed one name per line splits back into the names. |
| `Xfce4Backend.TwoMonitorsCalls` | xfce4.go:87-99 | For two monitors, the planned commands are the four expected sets, in order. |
| `Xfce4Backend.TwoMonitorsTiled` | xfce4.go:45-101 | Two monitors in a mode with code 2, all runs succeeding: no error; the query and the four sets are issued. |
| `Xfce4Backend.TwoMonitorsThirdSetFails` | xfce4.go:90-97 | The same with the third run failing: that set is the error, and the fourth is never issued. |
| `Xfce4Backend.FailureWithin` | xfce4.go:87-97 | Proof step of `SetProperties`: a failure inside one property's commands is the first failure of the whole plan. |
| `Xfce4Backend.StopsWithin` | xfce4.go:87-97 | Proof step of `SetProperties`: the loop's result and log when a property's command fails. |
| `Xfce4Backend.PassesWithin` | xfce4.go:87-99 | Proof step of `SetProperties`: the loop's log and run counter when a property's commands all succeed. |
| `Xfce4Backend.FirstGuardFails` | xfce4.go:89-93 | Proof step of `ApplyProperty`: when the style set fails, the body returns before the image test. |
| `Xfce4Backend.FirstGuardPasses` | xfce4.go:89-98 | Proof step of `ApplyProperty`: when the style set (if any) succeeds, the image set (if any) is issued, and it is the failure if it fails. |
| `Exec.Runner.Output` | utils.go:83-93 | Logs one output invocation and returns the listing. The run counter is not in its frame, so it does not count as a run. |
| `Exec.Runner.Run` | utils.go:70-79 | Logs one run invocation and advances the run counter by one. Its success is the scripted outcome at the counter's old value. |
| `GoStd.HasPrefixIff` | utils.go:139 | strings.HasPrefix(s, p) holds exactly when s is at least as long as p and begins with p's characters, in order. |
| `GoStd.HasSuffixIff` | utils.go:165 | strings.HasSuffix(s, p) holds exactly when s is at least as long as p and ends with p's characters, in order. |
| `GoStd.ReplaceFirst` | utils.go:201-203 | strings.Replace with n = 1 leaves a string without the pattern unchanged. On a string that starts with the pattern it puts the replacement in the pattern's place. |
| `GoStd.ByteLen` | xfce4.go:64 | Go's `len` of a string, its UTF-8 byte count, is at least its number of characters. The two are equal exactly when every character is ASCII. |
| `GoStd.ByteLenOne` | xfce4.go:64 | `len(mode) == 1` holds exactly for a single ASCII character. |
| `GoStd.EndsWithIsHasSuffix` | xfce4.go:89 | The character-by-character suffix test used for the two property tests agrees with strings.HasSuffix. |
| `GoStd.EndsWithAppended` | xfce4.go:94 | A name ends with the suffix appended to it. |
| `GoStd.Split` | xfce4.go:51 | strings.Split returns at least one piece, and no piece contains the separator. |
| `GoStd.JoinSplit` | xfce4.go:51 | Joining the pieces of a split with the separator gives back the string. |
| `GoStd.SplitJoin` | xfce4.go:51 | Splitting a join of at least one separator-free piece gives back the pieces. |
| `GoStd.JoinCons` | xfce4.go:51 | Proof step of `JoinSplit` and `SplitJoin`: a piece joined in front of others is followed by one separator. |
| `GoStd.Index` | utils.go:201 | strings.Index returns the first position where the pattern occurs, or -1 when it occurs nowhere. |
| `GoStd.FirstIndex` | xfce4.go:51 | Helper of `Split`, which cuts at the first separator: the first position holding an element: nothing before it is equal to it. |
| `GoStd.FirstIndexUnique` | xfce4.go:51 | Helper of `Split` and of `DedupKeepsFirstOccurrenceOrder`: a position holding x with no x before it is the first position. |
| `GoStd.Ext` | utils.go:41 | filepath.Ext is a suffix of the path. When non-empty it starts with its only '.' and holds no '/'. |
| `GoStd.ExtEmptyIff` | utils.go:41 | filepath.Ext is empty exactly when no '.' follows the last '/'. |
| `GoStd.NoDotAfterLastSlashSnoc` | utils.go:41 | A final character other than '.' and '/' leaves the "no dot after the last slash" test unchanged. |
| `Utils.Has` | utils.go:12-19 | `has` is true exactly when the element occurs in the slice. |
| `Utils.Dedup` | utils.go:22-30 | The result of `unique` has the same elements as the input and no duplicates. |
| `Utils.Unique` | utils.go:22-30 | The loop computes `Dedup`. |
| `Utils.DedupKeepsFirstOccurrenceOrder` | utils.go:22-30 | The kept elements appear in the order of their first occurrence in the input. |
| `Utils.DedupOfDistinct` | utils.go:22-30 | A slice without duplicates is returned unchanged. |
| `Utils.DedupIdempotent` | utils.go:22-30 | `unique` is idempotent. |
| `Utils.Negate` | utils.go:34 | Go's unary minus on 64-bit int. It is -x except for the least int, which is its own negation. |
| `Utils.Abs` | utils.go:32-37 | For every int but the least, abs is non-negative and equals x or -x. The least int is returned unchanged, still negative. |
| `Utils.Firstname` | utils.go:40-43 | firstname(f) + Ext(f) == f, so it is a prefix of f. It is f itself when no '.' follows the last '/'. |
| `Utils.ShortestIndex` | utils.go:126-133 | Returns the first string of least length: no string is shorter, and every string before it is longer. |
| `Utils.FindShortest` | utils.go:126-133 | The opening scan settles on the first shortest string and its length. |
| `Utils.CommonPrefix` | utils.go:122-145 | As written: "" for no strings or when any is empty, and sl[0] for one string. The result is a prefix of the first shortest string. When it is shorter than that string it is the longest common prefix. Otherwise only the prefix one shorter is known to be common. |
| `Utils.CommonPrefixOffByOne` | utils.go:137-141 | For ["ab", "ac"] the result is "ab", which is not a prefix of "ac". |
| `Utils.LongestCommonPrefix` | utils.go:121-145 | Corrected: a prefix of every string that every common prefix is a prefix of. |
| `Utils.CommonSuffix` | utils.go:148-171 | As written: the mirror image of CommonPrefix, with suffixes. |
| `Utils.CommonSuffixOffByOne` | utils.go:163-167 | For ["ab", "cb"] the result is "ab", which is not a suffix of "cb". |
| `Utils.LongestCommonSuffix` | utils.go:147-171 | Corrected: a suffix of every string that every common suffix is a suffix of. |
| `Utils.Meat` | utils.go:177-182 | A string too short for both affixes is returned unchanged. Otherwise the result is what lies between as many leading characters as the prefix has and as many trailing characters as the suffix has. |
| `Utils.MeatOfWrapped` | utils.go:173-182 | Meat(p + m + q, p, q) == m. |
| `Utils.ExpandUser` | utils.go:198-206 | "~" + r becomes home + r. Otherwise "$HOME" + r becomes home + r. Any other path is unchanged. |

## Left out

- Starting processes in `run`, `output`, `runShell` and `outputShell` (utils.go:70-119). `run` and `output` are replaced by the scripted `Runner`. `runShell` and `outputShell` are not called by the modelled core.
- The `fmt.Println` echo of verbose commands: the flag is only recorded in each invocation.
- The text of the error messages: errors are the constructors of `Error`. A failed run's error becomes `CommandFailed` with the failing invocation.
- `exists`, `which`, `which2` (utils.go:46-66) and `ExecutablesExists` (xfce4.go:23-25): file-system and PATH probes. The image's existence is a parameter.
- `Running` (xfce4.go:28-30): it reads environment variables through a foreign package.
- `Quit` (utils.go:185-194): it writes to stderr and exits the process.
- `defaultMode` is declared in a file that is not part of this model; it is a parameter of `SetWallpaper`.
- Making the image path absolute: xfce4.go:95 passes the path to xfconf-query unchanged, and so does the model.
- Go strings are byte sequences and `len` counts bytes. Here strings are sequences of characters. The mode check of `FillMode` counts bytes through `ByteLen`, as Go does. Slicing by length (firstname, Meat, CommonPrefix and CommonSuffix) counts characters, so it agrees with Go only for ASCII text.
- `Utils.Abs`: modelled on Go's 64-bit `int` with explicit wrap-around, not on unbounded integers. The least int is the one input where non-negativity fails, and the contract says so.

## Findings

| source | as written | input that shows it | evidently intended | confidence | as-written member | corrected member |
|---|---|---|---|---|---|---|
| utils.go:137 | the loop bound `i < shortestLength` never checks the full shortest string, which is returned when only its prefix one shorter is common | ["ab", "ac"] returns "ab" | the longest common prefix, "a" (the doc comment at utils.go:121) | not executed | `Utils.CommonPrefixOffByOne` | `Utils.LongestCommonPrefix` |
| utils.go:163 | the same bound in the mirror loop never checks the full shortest string | ["ab", "cb"] returns "ab" | the longest common suffix, "b" (the doc comment at utils.go:147) | not executed | `Utils.CommonSuffixOffByOne` | `Utils.LongestCommonSuffix` |
