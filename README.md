# httpu, the templated-request engine

httpu is a terminal HTTP client. A project's request resources are JSON files
that describe a request with its URI, method, body, headers and form data, and
a list of variants. Any string in a request may hold placeholders of the form
`${env[NAME]}` and `${stash[NAME]}`. Before a request is sent, an update pass
fills these placeholders in from the process environment and from the stash.
The stash is a global store that capture rules fill with values taken from
earlier responses.

This project models that engine in Dafny:

- the placeholder substituter `varparser`, as written, including its quirks;
- the stash and environment sources;
- the header merge;
- the request and variant records and how they are decoded;
- the in-place update pass;
- the assembly and sending of a call, with timing and capture into the stash;
- the registry of loaded requests, its sorted listing, its prefix search and its text form;
- the JSON pretty-printer of the response view, with its ANSI colour wrapper;
- the layout arithmetic of the terminal views.

Files, by module:

- `wrappers.dfy` (`Wrappers`): `Option` and `Result`.
- `goint.dfy` (`GoInt`): Go's truncating integer division.
- `strings.dfy` (`Strings`): prefix, first occurrence, replace-first, join, and byte order with sorting.
- `varparser.dfy` (`VarParser`): the substituter.
- `stash.dfy` (`Stash`) and `env.dfy` (`Env`): the two sources.
- `headers.dfy` (`Headers`): `Concat`.
- `request.dfy` (`Request`): requests, variants and their decoding.
- `modifier.dfy` (`Modifier`): `Update`.
- `executor.dfy` (`Executor`): `Make`, `MakeWithVariant`, `make` and `applyStash`.
- `resource.dfy` (`Resource`): the registry.
- `resource_examples.dfy` (`ResourceExamples`): the search tests.
- `color.dfy` (`Ansi`): colours.
- `printer.dfy` (`Printer`): the printer.
- `ui.dfy` (`Ui`): the layout.

How the model is built:

- Strings are `seq<char>`, one character per byte. Go's `range s` over a string visits rune starts; the model visits every index, which is the same for ASCII text.
- Go maps (`http.Header`, `url.Values`, the stash, the registry) are Dafny maps.
- Loops over a map are modelled by picking any key not yet visited. Each such loop is proved to give the same result whatever the order.
- A Go panic becomes `ok == false` from the method, or an `Err` from the function. A `*Panics` predicate beside it says exactly when that happens.
- The stash store and the registry are objects whose fields the methods update.
- The update pass works on a `Modifier.RequestSpec` object. Its methods are proved against the value-level functions `WithFormHeader`, `WithDataFile`, `SubstSpec` and `Updated`.
- The printer is a class with a depth, an indent width and an append-only buffer. It is proved against `Render`, a fold of `Emit` over the tokens.

## Model

| member | source | states |
|---|---|---|
| VarParser.New | vendor/github.com/hazbo/httpu/utils/varparser/varparser.go:29-31 | the parser made for kind `k` has kind `k` |
| VarParser.VarParser.Parse | vendor/github.com/hazbo/httpu/utils/varparser/varparser.go:39-92 | the scanning loop over the original string's indices, reading the string as it is rewritten, computes `Substitute`; an unclosed token is the error `IndexOutOfRange` |
| VarParser.Visit | vendor/github.com/hazbo/httpu/utils/varparser/varparser.go:44-88 | one scan position: skipped past the end, on a non-`$` or a non-matching start, an unclosed token is an error, an empty value keeps the string, otherwise the first occurrence of the term is replaced |
| VarParser.ReadKey | vendor/github.com/hazbo/httpu/utils/varparser/varparser.go:68-70 | the key loop stops at the first `]` after the token start, and runs off the end exactly when there is none |
| VarParser.EmptyInput | vendor/github.com/hazbo/httpu/utils/varparser/varparser.go:40-42 | the empty string gives the empty string |
| VarParser.TokenReplaced | vendor/github.com/hazbo/httpu/utils/varparser/varparser.go:65-85 | a token with a non-empty value is replaced by that value, the text around it kept |
| VarParser.TokenKeptWhenUnresolved | vendor/github.com/hazbo/httpu/utils/varparser/varparser.go:81-84 | a token whose value is empty is left verbatim |
| VarParser.NoDollarUnchanged | vendor/github.com/hazbo/httpu/utils/varparser/varparser.go:45-87 | a string with no `$` comes back unchanged |
| VarParser.NoTokenUnchanged | vendor/github.com/hazbo/httpu/utils/varparser/varparser.go:59-73 | a string with no `${kind[` comes back unchanged |
| VarParser.ForeignTokensUntouched | vendor/github.com/hazbo/httpu/utils/varparser/varparser.go:65-73 | a string whose every `${` opens a token of another kind (a kind with a different first letter) comes back unchanged |
| VarParser.TwoTokensReplaced | vendor/github.com/hazbo/httpu/utils/varparser/varparser.go:43-85 | two tokens of the kind are both replaced while the first value is shorter than the two terms |
| VarParser.LongValueSkipsNextToken | vendor/github.com/hazbo/httpu/utils/varparser/varparser.go:43-44 | scan positions come from the original length, so a first value at least as long as both terms makes the scan end before it reaches the second token, which stays |
| VarParser.UnclosedTokenPanics | vendor/github.com/hazbo/httpu/utils/varparser/varparser.go:68 | a `${kind[` with no later `]` reads past the end: the error |
| VarParser.StepToken | vendor/github.com/hazbo/httpu/utils/varparser/varparser.go:65-85 | at a token start the key is the text up to the first `]`, and the step replaces the term or keeps the string |
| VarParser.TokenParsesAt | vendor/github.com/hazbo/httpu/utils/varparser/varparser.go:65-70 | the key read at a token is exactly the text between `${kind[` and the first `]` |
| VarParser.ScanSkip | vendor/github.com/hazbo/httpu/utils/varparser/varparser.go:59-73 | positions with no token start are passed over without change |
| VarParser.ExampleSingleToken | utils/varparser/varparser_test.go:21-29 | `${stash[test]}` gives `test-variable-test`, `${env[hello]}` gives `test-variable-hello` |
| VarParser.ExampleTwoTokens | utils/varparser/varparser_test.go:31-33 | both tokens of `${multi[hello]} string ${multi[world]}` are replaced |
| VarParser.ExampleOtherKindIgnored | utils/varparser/varparser_test.go:35-37 | kind `ignore` leaves the `multi` tokens alone |
| Strings.IndexFromSpec | vendor/github.com/hazbo/httpu/utils/varparser/varparser.go:85 | the found occurrence is the leftmost one, and none is missed |
| Strings.ReplaceFirstAt | vendor/github.com/hazbo/httpu/utils/varparser/varparser.go:85 | `strings.Replace(s, t, v, 1)` replaces the leftmost occurrence |
| Strings.ReplaceFirstAbsent | vendor/github.com/hazbo/httpu/utils/varparser/varparser.go:85 | without an occurrence the string is unchanged |
| Strings.Sort | resource/resource.go:74 | `sort.Strings`: the result is sorted and a permutation of the input |
| Strings.SortedUnique | resource/resource.go:74 | two sorted permutations of one list are equal, so the sorted listing does not depend on map order |
| Strings.LessEqTotal | resource/resource.go:74 | the byte order compares any two strings |
| Strings.LessEqAntisymmetric | resource/resource.go:74 | strings ordered both ways are equal |
| Strings.LessEqTransitive | resource/resource.go:74 | the order is transitive |
| Strings.LessEqCommonPrefix | resource/resource.go:74 | a common prefix does not change the order |
| Stash.Replace | vendor/github.com/hazbo/httpu/stash/stash.go:28-30 | the stored entry's value, or `""` for an absent key |
| Stash.Store.constructor | vendor/github.com/hazbo/httpu/stash/stash.go:33 | the store starts empty |
| Stash.Store.Set | vendor/github.com/hazbo/httpu/stash/stash.go:46-48 | the key now maps to the value and nothing else changes |
| Stash.Store.Get | vendor/github.com/hazbo/httpu/stash/stash.go:51-60 | the entry and no error when present, the zero value and an error exactly when absent |
| Stash.Store.Push | vendor/github.com/hazbo/httpu/stash/stash.go:39-43 | each entry of the batch is stored under its name, in batch order |
| Stash.SetThenGet | vendor/github.com/hazbo/httpu/stash/stash.go:46-60 | after `Set(k, v)`, `Get(k)` gives `v`, and every other key reads as before |
| Stash.GetMissing | vendor/github.com/hazbo/httpu/stash/stash.go:56-58 | an absent key gives the zero value and an error |
| Stash.PushedLookup | vendor/github.com/hazbo/httpu/stash/stash.go:39-43 | after `Push` a batch name holds its last entry; other keys keep their entries or stay absent |
| Stash.PushedKeys | vendor/github.com/hazbo/httpu/stash/stash.go:39-43 | `Push` adds exactly the batch names to the keys |
| Stash.LastNamedIs | vendor/github.com/hazbo/httpu/stash/stash.go:40-42 | of duplicate names the later entry wins |
| Stash.ParseStored | vendor/github.com/hazbo/httpu/stash/stash.go:64-66 | a `${stash[k]}` token of a stored non-empty value is replaced by it |
| Stash.ParseMissingKept | vendor/github.com/hazbo/httpu/stash/stash.go:64-66 | a token of an absent key, or of a key stored with an empty value, is kept |
| Stash.ParseLeavesEnvTokens | vendor/github.com/hazbo/httpu/stash/stash.go:64-66 | a string whose every `${` opens a token of another kind, such as `${env[...]}`, comes back unchanged |
| Env.Replace | vendor/github.com/hazbo/httpu/env/env.go:14-16 | the variable's value, or `""` when unset |
| Env.ParseEmpty | vendor/github.com/hazbo/httpu/env/env.go:23-25 | `Parse("")` is `""` |
| Env.ParseSet | vendor/github.com/hazbo/httpu/env/env.go:23-25 | a token of a set, non-empty variable is replaced by its value |
| Env.ParseUnsetKept | vendor/github.com/hazbo/httpu/env/env.go:23-25 | a token of an unset or empty variable is kept verbatim |
| Env.ParseLeavesStashTokens | vendor/github.com/hazbo/httpu/env/env.go:23-25 | a string whose every `${` opens a token of another kind, such as `${stash[...]}`, comes back unchanged |
| Headers.Add | resource/request/headers/headers.go:51 | `Header.Add` appends the value to the name's list and changes no other name |
| Headers.Concat | resource/request/headers/headers.go:49-54 | the loop over `h2`, in any order, computes `Merged(h1, h2)` |
| Headers.Merged | resource/request/headers/headers.go:49-54 | the merged names are those of both maps |
| Headers.MergedShape | resource/request/headers/headers.go:50-52 | the base values stay first and in order; a name of `h2` gets exactly one more value, the comma-join of its values; a name only in `h1` is unchanged |
| Headers.MergedNothing | resource/request/headers/headers.go:50 | merging nothing leaves the base headers as they were |
| Headers.MergedSoFarAll | resource/request/headers/headers.go:50-52 | once every name of `h2` is visited the merge is complete, whatever the visiting order |
| Headers.ExampleMerge | resource/request/headers/headers.go:49-54 | `{A:[1]}` merged with `{A:[2], B:[3,4]}` is `{A:[1,2], B:["3,4"]}` |
| Request.LoadContents | resource/request/request.go:32-43 | contents already present are kept; a failed read leaves the data and reports the error; the file name is kept |
| Request.LoadThenString | resource/request/request.go:26-43 | after a successful load of empty data, `String` is the file's text |
| Request.LoadIdempotent | resource/request/request.go:33-35 | loading a second time changes nothing |
| Request.Request.GetVariant | resource/request/request.go:107-114 | a found variant is one of the request's and has the name; the error text names the missing variant |
| Request.GetVariantSpec | resource/request/request.go:107-114 | the lookup fails exactly when no variant has the name, and otherwise gives the first one that has it |
| Request.FirstNamedSpec | resource/request/request.go:108-112 | the index found is the first match, and no match is missed |
| Request.ExampleGetVariant | resource/request/request_test.go:17-37 | the test request finds `test-variant` |
| Request.Names | resource/request/variant.go:73-79 | as many names as variants, each the name of its variant, in list order |
| Request.GroupedValues | resource/request/variant.go:45-59 | the map built from a list holds under each name exactly the listed values, in list order, and has only listed names |
| Request.ValuesForAppend | resource/request/variant.go:47-49 | one more entry adds its value to its own name only |
| Request.BuildMultimap | resource/request/variant.go:45-59 | the `Add` loop builds `Grouped(pairs)` |
| Request.ExampleGrouped | resource/request/variant.go:45-52 | two `Accept` entries give `Accept: [a, c]` |
| Request.DecodeVariant | resource/request/variant.go:24-68 | headers and form become the grouped lists; the body is loaded only when it is empty, and a failed load is ignored; name, path, method and rules are kept |
| Request.DecodeSpec | resource/request/request.go:61-96 | headers and form become the grouped lists; nothing else changes |
| Modifier.RequestSpec.constructor | resource/request/request.go:48-56 | the object holds the given specification |
| Modifier.RequestSpec.Update | resource/request/modifier.go:12-17 | form header, file load, environment pass, stash pass, in that order; it fails exactly when a pass panics |
| Modifier.RequestSpec.AddFormHeader | resource/request/modifier.go:22-27 | the state becomes `WithFormHeader` of the old one |
| Modifier.WithFormHeader | resource/request/modifier.go:22-27 | with form data the content type is exactly the form encoding, and every other header and field is kept; without form data nothing changes |
| Modifier.RequestSpec.LoadDataFiles | resource/request/modifier.go:31-35 | the state becomes `WithDataFile` of the old one |
| Modifier.WithDataFile | resource/request/modifier.go:31-35 | only the base body changes, and only when it names a file |
| Modifier.RequestSpec.ParseEnvVars | resource/request/modifier.go:39-70 | the environment pass: it fails exactly when a substitution panics, else the state is `EnvPass` of the old one |
| Modifier.RequestSpec.ParseStashVars | resource/request/modifier.go:74-106 | the same pass with the stash as the source |
| Modifier.RequestSpec.ParseVars | resource/request/modifier.go:40-69 | URI, method, body, form values, first header values and the variants are substituted |
| Modifier.SubstValues | resource/request/modifier.go:45-47 | every value of a form name is substituted, in place |
| Modifier.SubstFormValues | resource/request/modifier.go:44-48 | the form loop, in any order, computes `SubstForm`; it fails exactly when a value's substitution panics |
| Modifier.SubstFirstValues | resource/request/modifier.go:50-52 | the header loop, in any order, computes `SubstHeads`; it fails exactly when a name has no value or its first value panics |
| Modifier.SubstOneVariant | resource/request/modifier.go:56-68 | one variant's path, body, first header values and form values |
| Modifier.SubstVariantList | resource/request/modifier.go:55-69 | the variant loop computes `SubstVariants` |
| Modifier.SubstEach | resource/request/modifier.go:45-47 | as many values come out as go in |
| Modifier.SubstForm | resource/request/modifier.go:44-48 | the same form names, each with as many values |
| Modifier.SubstHeads | resource/request/modifier.go:50-52 | the same header names and counts, and every value after the first kept |
| Modifier.SubstVariant | resource/request/modifier.go:56-68 | a variant's name, method, capture rules, file name and header and form names are not touched |
| Modifier.SubstVariants | resource/request/modifier.go:55-69 | the same number of variants, with names, methods and rules kept |
| Modifier.SubstSpec | resource/request/modifier.go:40-69 | the rules, the file name, the header and form names and the variant count are kept |
| Modifier.UpdatedContentType | resource/request/modifier.go:22-27 | with form data the updated content type is exactly the form encoding, since neither pass alters it |
| Modifier.UpdatedShape | resource/request/modifier.go:12-17 | `Update` adds no header name except the content type, adds or removes no form name, and keeps the capture rules |
| Modifier.UpdatedVariants | resource/request/modifier.go:55-69 | `Update` keeps the number of variants and each one's name, method and rules |
| Modifier.UpdatedVariantAt | resource/request/modifier.go:12-17 | variant `i` after `Update` is variant `i` after the environment pass and then the stash pass; the form header and the body file do not touch it |
| Modifier.StashTokenResolved | resource/request/modifier.go:12-17 | a `${stash[key]}` token whose stored value is non-empty and `$`-free survives the environment pass and is then replaced by that value; neither pass panics on it |
| Modifier.FormPlain | resource/request/modifier.go:44-48 | form values with no `$` come through unchanged and cannot panic |
| Modifier.HeadsPlain | resource/request/modifier.go:50-52 | headers whose first values have no `$` come through unchanged |
| Modifier.EmptyHeaderPanics | resource/request/modifier.go:51 | a header name with no value makes the pass panic |
| Modifier.UnclosedUriPanics | resource/request/modifier.go:40 | an unclosed `${env[` in the URI makes `Update` panic |
| Modifier.UriOnlyPass | resource/request/modifier.go:40-48 | a pass over a specification whose only placeholders are in its URI rewrites the URI and nothing else |
| Modifier.ExampleUpdate | resource/request/modifier.go:12-17 | `${stash[user]}/${stash[id]}` survives the environment pass and becomes `alice/42` |
| Executor.RequestBody | resource/request/request.go:218-223 | the encoded form when there is form data, else the body text |
| Executor.ExampleRequestBody | resource/request/request_test.go:189-223 | with no form the loaded text is sent; with the test form `foo=bar`, `something=else` its encoding is sent |
| Executor.LatencyBounds | resource/request/request.go:209 | the latency is the elapsed time truncated to whole milliseconds |
| Executor.Outcome | resource/request/request.go:180-213 | on a build or transport failure, an empty response and a zero stat; otherwise the response and its latency |
| Executor.Captured | resource/request/request.go:235-238 | one filled-in rule per rule |
| Executor.ApplyStash | resource/request/request.go:228-241 | without rules nothing changes; otherwise each rule takes the value its path finds, the rules are pushed, and the response stays the same |
| Executor.Exchange | resource/request/request.go:180-213 | build, send, time, then capture only after a delivered call |
| Executor.StoreUnchangedWithoutCapture | resource/request/request.go:187-206 | a failed call, or one with no rules, leaves the stash alone |
| Executor.CaptureStored | resource/request/request.go:233-240 | after a delivered call, a rule with no later rule of its name holds what its path found |
| Executor.CaptureFeedsLaterRequest | resource/request/request.go:228-241 | a captured value fills a later request's `${stash[name]}` token |
| Executor.Make | resource/request/request.go:135-150 | update, then call base URL + URI with the spec's method, headers, body, form and rules; the filled-in rules are written back to the spec |
| Executor.MakeWithVariant | resource/request/request.go:154-171 | for variant `i` of the request's own list: update, which rewrites that variant too; a panic stops with the stash untouched; otherwise the updated variant's headers become the base ones merged with its own, and the base headers become that merge too; the call goes to base URL + updated URI + updated path with the updated variant's method, body, form and rules, and the filled-in rules are written back into the variant |
| Executor.SendVariant | resource/request/request.go:160-170 | on an updated specification: the merge is written to the base and the variant headers, the variant's call is made, and its filled-in rules are written back |
| Executor.VariantHeaderResolved | resource/request/request.go:156-160 | a variant header set to one value holding a stored `${stash[key]}` token is sent with the stored value in the token's place, as the last value of the merged header |
| Executor.VariantPathResolved | resource/request/request.go:156-163 | a stored `${stash[key]}` token in a variant's path is replaced by the stored value in the URL the call goes to |
| Resource.EntriesOf | resource/resource.go:66-72 | one entry per variant, plus the bare name only when method and URI are both set |
| Resource.EntryListPick | resource/resource.go:66-73 | the entries as a multiset do not depend on the order the requests are visited |
| Resource.Listing | resource/resource.go:64-76 | the listing is sorted and holds every entry of every request |
| Resource.Registry.constructor | resource/resource.go:34 | the registry starts empty |
| Resource.Registry.AllReqVars | resource/resource.go:64-76 | the map loop, in any order, then the sort, gives `Listing`: sorted, and every entry exactly once |
| Resource.AppendEntries | resource/resource.go:67-72 | the `append` calls for one request add its entries |
| Resource.Registry.SearchRequests | resource/resource.go:48-59 | nothing for `""`, otherwise the listed entries with the query as a prefix, in listing order |
| Resource.WithPrefixSpec | resource/resource.go:53-57 | an entry is found exactly when it is listed and starts with the query |
| Resource.WithPrefixSorted | resource/resource.go:53-57 | the entries found are sorted |
| Resource.Registry.String | resource/resource.go:21-30 | `Requests:\n\n` and then one line per listed entry |
| Resource.WriteLines | resource/resource.go:25-27 | each entry is written followed by a newline |
| Resource.LinesConcat | resource/resource.go:25-27 | the text of two entry lists one after the other is the text of the first followed by the text of the second |
| Resource.LinesAt | resource/resource.go:25-27 | entry `i` is written as its own line, between the lines of the entries before it and those after it |
| Resource.Registry.Load | resource/resource.go:94-126 | a failed read, a missing kind or name, and a bad request are errors that leave the registry alone; other kinds are ignored; a request is updated and stored under its name, replacing any earlier one |
| ResourceExamples.ExampleListing | resource/resource_test.go:11-42 | the test registry lists its three variant entries, sorted |
| ResourceExamples.ExampleSearch | resource/resource_test.go:44-48 | the searches find 2, 1, 1, 1 and 0 entries |
| ResourceExamples.ExampleEntries | resource/resource_test.go:11-42 | the test registry's entries are its three variants |
| Ansi.ColorsConsecutive | ui/printer/color.go:7-16 | the constants count up by one from black at 30 to white at 37 |
| Ansi.DecimalDigits | ui/printer/color.go:19 | `%d` of a natural number is non-empty, all digits, with no leading zero |
| Ansi.DecimalValue | ui/printer/color.go:19 | the digits read back as the number |
| Ansi.DecimalInjective | ui/printer/color.go:19 | different numbers print differently |
| Ansi.Itoa | ui/printer/color.go:19 | `%d` is never empty |
| Ansi.ColorParts | ui/printer/color.go:18-20 | the escape start, then `s` unchanged, then the reset `ESC[0m` at the end |
| Ansi.ColorInjective | ui/printer/color.go:18-20 | the text and the colour can be read back from a coloured string |
| Ansi.ExampleStart | ui/printer/color.go:9-12 | red, green and blue start with `ESC[31;1m`, `ESC[32;1m` and `ESC[34;1m` |
| Printer.TokenKinds | ui/printer/printer.go:49-72 | a lone `"` is the only panicking token; the token kinds are checked in order and do not overlap |
| Printer.Spaces | ui/printer/printer.go:93-97 | `n` spaces, none for a non-positive `n` |
| Printer.Emit | ui/printer/printer.go:48-73 | an opening bracket adds one level, a closing one removes one, anything else keeps the depth |
| Printer.RenderDepth | ui/printer/printer.go:55-64 | the depth changes by the number of opening brackets minus the number of closing ones |
| Printer.RenderConcat | ui/printer/printer.go:46-74 | printing two token lists one after the other is printing them joined |
| Printer.BalancedDepth | ui/printer/printer.go:55-64 | balanced brackets bring the depth back to where it started |
| Printer.ExampleObject | ui/printer/printer.go:41-76 | `{"a":true}` prints as `{`, a newline and two spaces, the red key in quotes, `:`, blue `true`, a newline and `}` |
| Printer.JSONPrinter.constructor | ui/printer/printer.go:28-33 | depth 0, two spaces per level, nothing written |
| Printer.JSONPrinter.Newline | ui/printer/printer.go:100-102 | one newline appended |
| Printer.JSONPrinter.Indent | ui/printer/printer.go:93-97 | exactly depth × spaces blanks appended |
| Printer.JSONPrinter.PrintToken | ui/printer/printer.go:48-73 | the text of one token is appended and the depth moves as `Emit` says |
| Printer.JSONPrinter.PrintString | ui/printer/printer.go:37-76 | fails exactly when a token is a lone `"`; otherwise the buffer grows by the rendering of the tokens, the depth ends as the rendering says, and the whole buffer, including earlier output, is written |
| Ui.Columns | ui/spec.go:36-67 | a four-column gap between the request and response views, the bar under the request view, and a two-column gap between status and time |
| Ui.Rows | ui/spec.go:38-68 | the top views end at row maxY−4; the bottom views span rows maxY−3 to maxY−1 |
| Ui.FitsWidth | ui/spec.go:30-73 | on a terminal at least 46 wide every view fits, and the middle column falls between the top views |
| Ui.Titles | ui/spec.go:30-73 | only the top views wrap; the status and time views have titles |
| Ui.ExampleHundred | ui/spec_test.go:8-28 | the 100 × 100 dimensions of the layout test |
| Ui.ExampleTruncation | ui/spec.go:37 | `maxX/2` truncates toward zero for odd and negative widths |
| GoInt.QuoBounds | resource/request/request.go:209 | Go's `/` truncates toward zero: the bounds on either side of zero |

## Left out

- JSON decoding of resource files is not modelled: `json.Unmarshal`, `jsonparser.Get` for `kind` and `name`, and the JSON of variants and specs. Their outcome is passed in, as a `decode` function for `Load` and as decoded values for `DecodeVariant` and `DecodeSpec`.
- Splitting the response text into tokens with `text/scanner` is not modelled. The printer takes a token sequence.
- `fmt.Fprint` to the writer becomes `PrintString`'s returned text.
- Foreign calls are fields of a `Net` value and their results are not interpreted:
  - whether `http.NewRequest` accepts the method and URL;
  - `http.Client.Do`;
  - the JSON path lookup of capture rules;
  - `url.Values.Encode`.
- The clock is an elapsed time in nanoseconds, passed in.
- The environment is a map, passed in.
- Files readable under the project root are a map from path to text, passed in.
- `http.Header.Add` puts names into canonical form. The model takes names as already canonical.
- `Executor.MakeWithVariant` models the caller that hands in a variant of the request's own list (`&r.Spec.Variants[0]` in resource/request/request_test.go:145), so the update rewrites the variant that is sent. The terminal UI instead hands in a copy taken before the update (ui/bindings.go:131-135). In Go that copy shares its Headers and FormData maps with the specification, so the update rewrites those but not its Path or Data. That caller is not modelled.
- `Executor.MakeWithVariant` models the header aliasing as a single write-back: the base headers and the variant's headers both become the merge. The lasting sharing between the two maps after the call is not modelled.
- `Executor.Make` writes the filled-in capture rules back into the specification, as the shared slice does. Later sharing is not modelled.
- The registry stores request values. Go's copies are shallow: a later call through a copy taken from the map rewrites the stored request's variants, its header and form maps and its capture rules. The model does not carry that sharing back into the registry. No modelled registry operation (listing, search, `String`, `Load`) reads those fields, so their results are unaffected.
- Go's map iteration order is not modelled. Each map loop picks its keys by choice and is proved correct for every order.
- The `RepeatRequest` and `Origin` fields of stash entries are carried but have no behaviour here; httpu's own code does not read them in the core.
- Byte order in `sort.Strings` is modelled as the order of characters, which is the same for the ASCII names of resources.
- Strings are sequences of characters, one per byte. A multi-byte rune, which `range s` steps over as a whole, is not modelled.
- A nil `http.Header` is not modelled. In a specification that has form data, `addFormheader` would panic writing to it. `Headers.Concat` would panic too, on a nil `h1` and a non-empty `h2`, because `h1.Add` writes to a nil map. Decoding always makes both maps, so only hand-built specifications can reach these panics. The model treats a missing header map as an empty one.
- The terminal UI on gocui (views, key bindings, commands), the CLI, the configuration loader, the HTTP API server, git helpers and version constants are outside this model.
