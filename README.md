# Weight tracker: CSV record store and home page

A model of the two working parts of the weight-tracking app.

- **The `/api/weights` route** (`app/api/weights/route.ts`) keeps the measurements in the file `data/weights.csv`. The file holds a `date,weight` header and then one `date,weight` line per entry. The route offers:
  - GET: list the entries.
  - POST: append one entry after checking the request body.
  - DELETE: remove every entry equal to a given one, or, with `?all=true`, clear all entries.
- **The home page** (`app/page.tsx`) does the following:
  - loads the list and sorts a copy by date;
  - computes the lightest and heaviest weight and each entry's bar length;
  - labels dates `DD/MM` and builds the chart points;
  - checks the form before posting.

Modules, one file each:

| file | module | contents |
|---|---|---|
| `options.dfy` | `Options` | `Option` |
| `text.dfy` | `Text` | `String.prototype.trim`, `split` and `Array.prototype.join` on one-character separators, with their algebra |
| `numbers.dfy` | `Numbers` | weights as a count of tenths or NaN; `Number(text)`, `String(n)` and `===` on that domain |
| `json.dfy` | `Json` | the values a request body can hold; truthiness, `${v}` and `Number(v)` |
| `csv.dfy` | `Csv` | the file format: `Render` (what `writeFullCsv` writes) and `Parse` (`parseCsvToJson`), with the round-trip and append lemmas |
| `store.dfy` | `Store` | `class WeightStore`: the file as the fields `present` and `content`, the three file operations, and the GET, POST and DELETE handlers as methods |
| `view.dfy` | `View` | the page's pure derivations: a stable sort by date, min/max, percent, `formatarDataCurta` and `chartData` |
| `page.dfy` | `Page` | `class HomePage`: the page state (`pesos`, `data`, `peso`, `carregando`, `erro`) and the load, submit, delete and clear handlers |

**Inputs from outside.**
- Date parsing (`new Date(text)` with `getTime`/`getDate`/`getMonth`) is a parameter: a function from text to an optional (time, day, month) triple.
- Each network round trip is an input value: the request either threw, or it answered with an `ok` flag and the parsed JSON.
- The file system is reduced to two fields of the store: whether the file exists, and its text.

## Model

| member | source | states |
|---|---|---|
| Text.Trim | app/api/weights/route.ts:21 | the trimmed text, when not empty, starts and ends with a non-space character |
| Text.TrimEmpty | app/api/weights/route.ts:25-26 | a line trims to empty exactly when it is all white space |
| Text.TrimNoEdgeSpace | app/api/weights/route.ts:25 | text with no white space at its ends is left as it is by trim |
| Text.TrimKeepsCharacters | app/api/weights/route.ts:21 | trim only removes characters |
| Text.SplitPieces | app/api/weights/route.ts:21 | no piece of a split contains the separator |
| Text.Split | app/api/weights/route.ts:21 | every split has at least one piece; what the pieces are is stated by the lemmas below |
| Text.SplitSeveral | app/api/weights/route.ts:28 | a split yields more than one piece exactly when the separator occurs |
| Text.SplitFirst | app/api/weights/route.ts:28 | the first piece is a separator-free prefix of the text, followed by the separator unless it is the whole text: the text up to the first separator |
| Text.SplitConcat | app/api/weights/route.ts:21 | splitting `a + sep + b` gives the pieces of `a` followed by those of `b` |
| Text.SplitJoin | app/api/weights/route.ts:36 | splitting a join of at least one separator-free piece gives the pieces back (a join of no pieces splits into one empty piece) |
| Text.JoinSplit | app/api/weights/route.ts:36 | joining the pieces of a split gives the text back |
| Text.Join | app/api/weights/route.ts:36 | a join of at least one piece starts with the first piece |
| Numbers.Decimal | app/api/weights/route.ts:35 | the numeral of `n` is a non-empty digit string that reads as `n`, with a leading zero only for 0 |
| Numbers.NumberText | app/api/weights/route.ts:35 | `String(n)` is never blank, has no white space at its ends, and holds no comma or line break |
| Numbers.NumberTextRoundTrip | app/api/weights/route.ts:29 | `Number(String(n)) == n` for every weight, NaN included |
| Numbers.NumberOfText | app/api/weights/route.ts:29 | a blank text is 0, and a string of digits reads as the whole number it spells |
| Numbers.NotNumeral | app/api/weights/route.ts:29 | a text with no white space at its ends that starts with neither a digit, a sign nor a point is NaN |
| Numbers.StrictEquals | app/api/weights/route.ts:99 | `a === b` holds exactly when the numbers are equal and not NaN |
| Json.DateAndWeight | app/api/weights/route.ts:57 | destructuring fails exactly on null and undefined; otherwise it yields the `date` and `weight` properties, undefined when they are missing |
| Json.IsFalsy | app/api/weights/route.ts:58 | the falsy values are exactly undefined, null, false, NaN, 0 and the empty string |
| Json.TemplateText | app/api/weights/route.ts:40 | `${v}` throws exactly for an object with its own `toString`; a string is itself, and a number's text reads back as that number |
| Json.ToNumber | app/api/weights/route.ts:66 | `Number(v)` throws exactly for an object with its own `toString`; null and false are 0, true is 1, and any other value reads as `Number` of its text |
| Json.FromNumber | app/page.tsx:81 | a NaN weight is sent as null; any other number arrives as itself, and it is truthy exactly when it is not 0 |
| Csv.Render | app/api/weights/route.ts:33-36 | the written file starts with the header line; with no entries it is exactly `date,weight\n` |
| Csv.EntryLine | app/api/weights/route.ts:35 | an entry's line never ends in white space, and holds a line break only when the date does |
| Csv.EntryLineEnds | app/api/weights/route.ts:35 | an entry's line starts with its date and a comma, and ends in the weight's text |
| Csv.Lines | app/api/weights/route.ts:35 | one line per entry, each with a line break only when its date has one |
| Csv.LineToEntry | app/api/weights/route.ts:28-29 | the date is a comma-free prefix of the line, followed by a comma unless it is the whole line |
| Csv.Parse | app/api/weights/route.ts:20-31 | the first line is never an entry, so a file of a single line holds none |
| Csv.RowsToEntries | app/api/weights/route.ts:24-30 | at most one entry per line |
| Csv.RowsConcat | app/api/weights/route.ts:24-30 | lines are turned into entries one by one, in file order |
| Csv.RowsSingle | app/api/weights/route.ts:25-29 | a blank line yields nothing; any other line yields exactly the entry of its trimmed text |
| Csv.LineWithComma | app/api/weights/route.ts:28-29 | the date is the text before the first comma, and the weight is `Number` of the text between the first and second commas |
| Csv.LineWithoutComma | app/api/weights/route.ts:28-29 | a line with no comma is all date, and its weight is NaN |
| Csv.EntryLineRoundTrip | app/api/weights/route.ts:35 | a line written for an entry whose date is clean is left as it is by trim, and reads back as that entry |
| Csv.ParseUntrimmed | app/api/weights/route.ts:21-22 | for a file that does not start with white space, trimming the whole file changes nothing beyond its first line: white space at the end only adds blank lines |
| Csv.ParseInitial | app/api/weights/route.ts:16 | the freshly created file holds no entries |
| Csv.ParseRender | app/api/weights/route.ts:20-36 | a rewritten file reads back as the list written, when no date contains a comma or line break or starts with white space |
| Csv.ParseClean | app/api/weights/route.ts:20-31 | every parsed date is clean, so it can be written and read back |
| Csv.RenderParse | app/api/weights/route.ts:81-102 | rewriting what was read reads back as the same list |
| Csv.ParseAppend | app/api/weights/route.ts:39-42 | appending `\n` and an entry line to a file that starts with the header adds exactly that entry at the end of the list, when the entry's date has no comma or line break and does not start with white space |
| Store.RemoveMatching | app/api/weights/route.ts:98-100 | the filtered list is no longer than the original, no survivor matches the target, and every survivor comes from the original |
| Store.Matches | app/api/weights/route.ts:99 | an entry matches exactly when the target date is that very string and the weight is equal and not NaN |
| Store.RemoveMatchingCounts | app/api/weights/route.ts:98-100 | every copy of a matching entry is removed, and every other entry keeps all its copies |
| Store.RemoveMatchingConcat | app/api/weights/route.ts:98-100 | filtering works entry by entry, so survivors keep their relative order |
| Store.RemoveMatchingNone | app/api/weights/route.ts:98-100 | when nothing matches, the list is unchanged |
| Store.RemoveAndRewrite | app/api/weights/route.ts:98-102 | the file rewritten after a delete reads back as the filtered list |
| Store.DeleteNothingMatches | app/api/weights/route.ts:98-104 | a delete that matches nothing leaves the entry list as it was |
| Store.Ensured | app/api/weights/route.ts:14-18 | after creation the file either starts with the header or is the file that was already there |
| Store.WeightStore.constructor | app/api/weights/route.ts:12 | the store starts as the file `data/weights.csv` is found: present exactly when found, holding the found text, or empty when absent |
| Store.WeightStore.EnsureFileExists | app/api/weights/route.ts:14-18 | an absent file becomes exactly `date,weight\n`; a present one is untouched, so a second call changes nothing |
| Store.WeightStore.Read | app/api/weights/route.ts:47 | reading the file yields its text |
| Store.WeightStore.WriteFull | app/api/weights/route.ts:33-36 | the file becomes the rendering of the list and keeps the store invariant |
| Store.WeightStore.AppendLine | app/api/weights/route.ts:39-42 | the file gains `\n` and the entry's line at its end; an absent file is created with just that |
| Store.WeightStore.Get | app/api/weights/route.ts:44-53 | answers 200 with the parse of the (created if need be) file |
| Store.WeightStore.Post | app/api/weights/route.ts:55-72 | a non-JSON or null body gives 500, and a falsy date or weight gives 400; in both cases the file is untouched. A date or weight that cannot be converted gives 500 after the file is created, with nothing appended. Otherwise it answers 201 with `\n` and the entry's line appended. When the date has no comma or line break and does not start with white space, and the file was absent or started with the header, the entry list grows by exactly the entry added; otherwise the line can read back differently or not at all. Negative weights pass |
| Store.WeightStore.Delete | app/api/weights/route.ts:75-105 | with `all=true` the file becomes `date,weight\n` whatever the body. A non-JSON or null body is an uncaught exception. A falsy date or an undefined weight gives 400. A weight that cannot be converted is an uncaught exception when some entry carries the date, and otherwise every entry is kept. In every other case each matching entry is removed, the survivors are written back, and the answer is 200 |
| View.Key | app/page.tsx:52 | the key is present exactly when the date parses, and is then its time value |
| View.Compare | app/page.tsx:52 | for two parsed dates the sign of the result orders their times; when either does not parse the entries compare equal |
| View.InsertLast | app/page.tsx:51-53 | inserting adds exactly the one entry |
| View.SortByDate | app/page.tsx:51-53 | the sorted list is a permutation of the fetched list |
| View.SortStable | app/page.tsx:51-53 | entries with the same date key keep their fetched order |
| View.SortStableAll | app/page.tsx:51-53 | the same, for all keys at once |
| View.SortSorted | app/page.tsx:51-53 | when every date parses, the sorted list is in non-decreasing date order |
| View.MaxPeso | app/page.tsx:128-129 | 0 for no entries; otherwise at least every weight, and the weight of some entry |
| View.MinPeso | app/page.tsx:130-131 | 0 for no entries; otherwise at most every weight, and the weight of some entry |
| View.Percent | app/page.tsx:376-379 | 100 when max equals min. Otherwise it lies between 0 and 100 for weights in range, and is 0 exactly at the minimum and 100 exactly at the maximum |
| View.EntryPercent | app/page.tsx:376-379 | every entry's bar lies between 0 and 100; the lightest entry gets 0 and the heaviest 100 unless all weights are equal, when every bar is 100 |
| View.PadStart2 | app/page.tsx:139-140 | padding to two characters puts zeros in front and leaves longer texts alone |
| View.TwoDigits | app/page.tsx:139-140 | a number below 100 becomes two digits that read as that number |
| View.FormatShortDate | app/page.tsx:133-143 | an unparsable date is returned as written. Otherwise the label has 5 characters, `/` in the middle, the two-digit day before it and the two-digit month (1 to 12) after it |
| View.ChartData | app/page.tsx:145-148 | one point per entry, in the same order; each point keeps its entry's weight and is named with `formatarDataCurta` of its date: the date as written when it does not parse, otherwise `DD/MM` |
| Page.Listed | app/page.tsx:49 | a successful answer that is not an array counts as the empty list |
| Page.ErrorText | app/page.tsx:45 | the response's `error` text when it has one, otherwise the page's own message |
| Page.AfterLoad | app/page.tsx:36-62 | a thrown request or a non-ok answer keeps the list shown and sets the error. A successful load clears the error and shows a permutation of the received list; entries of equal date keep the order received, and the list is in date order when all dates parse |
| Page.SubmitBody | app/page.tsx:78-82 | the posted body carries the typed date and `Number` of the typed weight |
| Page.SubmitReachesStore | app/page.tsx:78-82 | the route accepts a submitted body exactly when the weight text reads as a number other than 0; the body never throws on conversion, and the entry stored holds the typed date and that number |
| Page.HomePage.constructor | app/page.tsx:25-29 | the page starts empty and loading |
| Page.HomePage.LoadWeights | app/page.tsx:36-62 | the list and error become what `AfterLoad` says, loading ends in every case, and the form is untouched |
| Page.HomePage.Submit | app/page.tsx:68-98 | an empty date or weight field sends nothing and shows "Preencha data e peso.". A failed post keeps list and form and shows the server's message or the page's. A successful one empties the form and reloads |
| Page.HomePage.DeleteEntry | app/page.tsx:100-113 | a request that goes out is followed by a reload whatever it answered; one that fails to go out shows "Erro ao excluir registro." and changes nothing else |
| Page.HomePage.ClearAll | app/page.tsx:115-126 | the same for `DELETE ?all=true`, with "Erro ao limpar registros." |

## Left out

- Numbers.NumberOfText: a weight is a decimal with at most one fractional digit. Texts with more than one fractional digit (`5.25`, `5.00`), exponents, hexadecimal, binary (`0b101`), octal (`0o17`) or `Infinity` read as NaN here, although `Number` accepts them. Negative zero is not distinguished from zero.
- Numbers.NumberText: formats only such one-digit decimals. It does not model the shortest-round-trip formatting of arbitrary doubles, nor the exponent form `String` switches to from 1e21 on. Tenths are unbounded, so weights beyond 2^53 are kept exactly here, where a double would round them.
- Json.JsValue: arrays in a request body are not modelled; an array body would be truthy and would have no `date` or `weight`.
- Store.WeightStore.Get: a read that fails (GET's 500 "Erro ao ler CSV") is not modelled, because the file operations never fail here.
- Store.WeightStore.Post: the 500 "Erro ao salvar" is modelled for a body that is not JSON or is null, and for a value that cannot be converted. A failing `appendFileSync` is not modelled, for the same reason as GET's.
- Concurrency: there is no locking between concurrent requests, and interleavings are not modelled. Each handler runs to completion.
- HTTP plumbing is not modelled: `NextResponse`, URL parsing (the query value enters as an optional string), and headers. The framework's 500 for an uncaught exception is modelled as `Response(500, Unhandled)`; only the body the framework sends with it is left out.
- View.WeightEntry: page weights are reals. Entries that reach the page with a null (NaN) weight are not modelled, and neither are the exact floating-point results of `percent` or the `toFixed(1)` display.
- View.SortByDate: when some dates do not parse, the comparator is inconsistent and the order `Array.prototype.sort` produces is implementation-defined. The model fixes one order (insertion), and only the permutation and stability lemmas apply then.
- Page.ErrorText: an `error` property that is not a string is treated as absent, so the page's own message is shown, where `json?.error ?? …` would keep that value. The route only ever sends string errors.
- Page.HomePage.DeleteEntry: the DELETE body (`JSON.stringify(entry)`) is not built, because page weights are reals and the store's weights are tenths.
- Rendering is not modelled: React scheduling (`useState`/`useEffect`), the `isClient` guard, `console.error`, styling and the recharts chart.
- `app/lib/firebase.ts` is not part of this model: it only caches SDK handles, and nothing in the route or the page uses it.
- Behaviour of the code worth knowing, which the model keeps as it is:
  - the route checks weights only for truthiness, so negative weights are stored;
  - dates are never checked to parse;
  - GET returns entries in file order, and only the page sorts them;
  - a failed reload keeps the entries already shown.
