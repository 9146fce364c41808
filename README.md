# coreylib, modelled in Dafny

coreylib is a PHP library that downloads an XML or JSON document from a web API, caches the
download, and lets a caller query the parsed document with a CSS/jQuery-like selector such as
`entry > link[@rel="alternate"]:first @href`. This project models the core of that library.
Everything else (cURL, the file system, SimpleXML, the clock, output buffering) is a parameter
or is left out.

- **The selector compiler (clSelector).**
  - `tokenize`/`untokenize` hide backslash escapes behind placeholders (`tokens.dfy`).
  - `generateRegEx` is the step grammar. It is written as a recogniser that follows the
    regular-expression engine's search order (`grammar.dfy`).
  - The constructor's splitter cuts a query into steps with the `>` (direct children) and `,`
    (append) flags. Building the step record then gives each step its element, attribute or
    attribute tests, and its suffixes (`selector.dfy`).
  - The selector object keeps its steps read-only and moves a cursor over them.
- **The query engine.**
  - A parsed XML document is an `Element` tree.
  - A `clXmlNode` is an element together with the namespace prefix it was reached under. Its
    descendant list and attribute table are computed once and memoised (`tree.dfy`).
  - `clNode::get` folds the steps of a selector over a working list: element expansion, then
    attribute tests or attribute projection, then the suffixes (`:first`, `:eq(n)`, `:has(x)`,
    and so on), then the next step. `has_attribute` evaluates the attribute tests `= != |= *= ~= $= ^=`.
  - `clNodeArray` runs `children` and `add` queries (`query.dfy`).
- **The cache layer (`cache.dfy`).**
  - `clCache::time` turns a timeout into an expiry time.
  - The file cache stores packets (created, expires, value) and purges expired ones when read.
  - `clStash` keeps an in-memory copy in front of the file cache.
  - The `cached`/`save`/`cancel` stack captures page output into the cache.
- **The download manager (`api.dfy`).**
  - `clApi` derives a cache key from the method, the credentials, the URL and the query string.
  - It decides when the cache may be read or written.
  - It parses a download at most once, by status and content type.
  - `clDownload` answers `is200`, `is2__`, `is4_` and the like, and guesses XML or JSON.

PHP behaviour is modelled where it matters:
- string truthiness: `""` and `"0"` are false;
- `strpos` with an empty needle;
- negative `array_slice` lengths;
- ordered arrays with string keys, as sequences of entries.

The library's quirks are reproduced as written. Examples:
- `isXml` calls `stripos` with its arguments swapped;
- `isJson`'s body sniffing can never succeed;
- a numeric timeout of 0 expires at once, while `false` never expires;
- the `is2__` loop enumerates only 200.

The model uses PHP's names where it can. Parts of the source that loop and update state are
methods with loop invariants, proved equal to the functions that specify them. The classes that
the source updates in place are Dafny classes: the selector's cursor, the node's memos, the node
array, the caches, the capture stack and the API object.

## Model

| member | source | states |
|---|---|---|
| Tokens.ReplacePairs | coreylib.php:1434-1440 | Replacing every `\c` pair by a fresh placeholder keeps the text the symbols stand for. It records only `c` as new tokens, leaves no `\c` pair behind, keeps pairs of other characters absent, and changes nothing when no pair was found. The result is the round as a function: the first pair replaced by the next placeholder until none is left. Every token recorded before keeps its placeholder. |
| Tokens.ReplaceAll | coreylib.php:1432-1443 | After visiting every escapable character in order, the symbols erase back to the query. Every placeholder names a recorded escapable character, every recorded token has its placeholder, and no escape pair is left. With no token, the query is unchanged. The result is the rounds' outcome, one round per character in order. |
| Tokens.Tokenize | coreylib.php:1432-1443 | The tokenized query is the rounds' outcome, behind the `TK` mark when a token was recorded. It erases back to the query. Every recorded token has its placeholder in it, every placeholder refers to a recorded escapable character, and no escape is left. |
| Tokens.MarkedIffEscaped | coreylib.php:1433-1442 | Tokens are recorded, and so the `TK` mark is set, exactly when some backslash in the query is directly followed by an escapable character. |
| Tokens.TokenizedUnique | coreylib.php:1432-1443 | A query has one tokenized form: its placeholders and their numbering are the ones the replacement rounds give, one round per escapable character in list order. |
| Tokens.ResolveIsUnescape | coreylib.php:1445-1455 | Replacing each placeholder by its character gives the reference reading of the escapes (`\c` means `c`) of the original text. |
| Tokens.UntokenizePlain | coreylib.php:1445-1448 | A query without escapes that does not start with `TK` is returned unchanged by untokenize. |
| Tokens.UntokenizeTokenize | coreylib.php:1432-1455 | Round trip: untokenize after tokenize gives the query with its escapes resolved, for every query not starting with `TK`. |
| Tokens.BackslashNotEscapable | coreylib.php:1291 | The backslash is not one of the escapable characters. |
| Grammar.NameEnd | coreylib.php:1518 | The longest run of name characters `[A-Za-z0-9_-]` is maximal: the next character is not one. |
| Grammar.TestLen | coreylib.php:1527-1542 | An operator match is at most two characters and ends in `=`. |
| Grammar.SuffixRun | coreylib.php:1545-1576 | A run of suffixes that matches reaches the end of the step (or a final newline). |
| Grammar.SearchExp | coreylib.php:1379-1386 | The unanchored re-match of one `[...]` part finds the first position where an attribute expression matches, and reports none only when none matches anywhere. |
| Grammar.LastValueEnd | coreylib.php:1573 | The greedy `.*` of a value stops at the last `"]` that can still close the expression. |
| Grammar.MatchWellFormed | coreylib.php:1515-1577 | Every successful match of a step yields captures of the shapes the groups allow: the element is empty, `*` or a name, the index is digits, the attribute and test names are names, the test is an operator ending in `=`, and the suffix starts with `:`. |
| Grammar.ExpWellFormed | coreylib.php:1573-1576 | Parsing an attribute expression keeps the captures well formed. |
| Grammar.ParseRestWellFormed | coreylib.php:1576 | Parsing the attribute and suffix groups keeps the captures well formed. |
| Selector.SplitKeepsText | coreylib.php:1309-1339 | The splitter drops only the separators `>`, `,`, `/` and whitespace: the steps' texts, joined, are the query without them. |
| Selector.SplitClean | coreylib.php:1309-1339 | No step text contains a separator or starts or ends with whitespace. |
| Selector.SplitFlags | coreylib.php:1309-1366 | Every step is direct exactly when a `>` lies after the symbol that emitted the step before it and at or before the symbol that emitted it. It is an append step exactly when a `,` lies there. So without `>` no step is direct, and without `,` none appends. |
| Selector.SeenSome | coreylib.php:1309-1366 | `Seen(t, x, a, b)`, the window test that `SplitFlags` uses, holds exactly when some symbol at a position from `a` up to but not including `b` is `x`. |
| Selector.ScanMarks | coreylib.php:1309-1366 | After any prefix of the query, each emitted step carries a flag exactly when its mark lies in that step's symbols, and the pending flag is set exactly when its mark was read since the last emission. |
| Selector.EmittedAtEmits | coreylib.php:1337-1366 | `EmittedAt` names the symbol that emitted a step: the step is among those emitted up to that symbol and not among those emitted before it. |
| Selector.SplitDirectExample | coreylib.php:1317-1319 | `a > b` splits into `a` and a direct `b`. |
| Selector.SplitAddExample | coreylib.php:1322-1325 | `a,b` splits into `a` with the append flag, then `b`. |
| Selector.SplitCommaExample | coreylib.php:1322-1343 | A `,` before any text leaves the end-of-step flag raised, so the next character is a step of its own: `,bc` gives `b` with the append flag, then `c`. |
| Selector.TrimRender | coreylib.php:1339 | Trimming the rendered step equals rendering the step with its whitespace symbols trimmed. |
| Selector.ExpParts | coreylib.php:1379 | Splitting several expressions on `][` yields at least one part. |
| Selector.PartsPreds | coreylib.php:1379-1386 | Each attribute test taken from the parts names a non-empty attribute, and parts that do not re-match are skipped. |
| Selector.LastLabelled | coreylib.php:1402-1417 | Finds the last suffix carrying a label: it is labelled, and no later suffix is. |
| Selector.SuffixFoldUnique | coreylib.php:1402-1419 | The suffix table has each label once. |
| Selector.SuffixFoldGet | coreylib.php:1402-1419 | A label's value in the suffix table comes from the last suffix with that label: the argument between the first `(` and the last `)`, untokenized, or the flag `true`. |
| Selector.EqAliasGet | coreylib.php:1422-1425 | The `[n]` index becomes `eq` exactly when there is no `eq` suffix and the index is truthy. Every other label is unchanged. |
| Selector.StepOfSpec | coreylib.php:1350-1370 | A step record carries the given direct and append flags and the query's attribute-getter flag. Its element is truthy unless it is an attribute getter (default `*`). It is an expression exactly when it holds attribute tests. |
| Selector.BuildStepSpec | coreylib.php:1339-1348 | A step fails exactly when its trimmed text does not match the grammar, with the error naming the step and the query. Otherwise it is the record built from the match. |
| Selector.CompiledSteps | coreylib.php:1295-1430 | Compiling fails exactly when some step fails to parse. Otherwise there is one step per split fragment, each direct when its fragment or the constructor asks, with its fragment's append flag. |
| Selector.CollectFirstError | coreylib.php:1346-1348 | The error reported is the one of the first failing step. Every step before it parsed. |
| Selector.StopsAtFailure | coreylib.php:1346-1348 | Once a step fails, later text does not change the outcome: the constructor throws there. |
| Selector.FoldSuffixes | coreylib.php:1402-1419 | The suffix loop builds the suffix table. |
| Selector.BuildPreds | coreylib.php:1372-1396 | The loop over `][` parts builds the attribute tests. |
| Selector.MakeStep | coreylib.php:1339-1427 | Building one step record gives its specification, or the parse error. |
| Selector.FailureEnds | coreylib.php:1346-1348 | A parse error after any prefix of the query is the constructor's error for the whole query. |
| Selector.SplitAndBuild | coreylib.php:1302-1430 | The constructor's character loop yields the compiled steps or the first parse error. |
| Selector.Compile | coreylib.php:1295-1300 | Tokenizes the query (Tokenized holds), then compiles it. |
| Selector.NewSelector | coreylib.php:1295-1430 | A new selector holds the compiled steps with its cursor at 0. A query that does not parse yields the compile error. |
| Selector.Selector.Current | coreylib.php:1475-1477 | The current step is one of the steps. |
| Selector.Selector.HasSuffix | coreylib.php:1462-1465 | Has a value exactly when the current step has that suffix label, and the value is that label's. |
| Selector.Selector.At | coreylib.php:1499-1501 | `offsetGet` yields the step at an index inside the steps and nothing outside them. |
| Selector.Selector.Next | coreylib.php:1483-1485 | Advances the cursor by one. |
| Selector.Selector.Rewind | coreylib.php:1487-1489 | Puts the cursor back at 0. |
| Tree.SelectAppend | coreylib.php:2288-2296 | Filtering the descendant list keeps order: it distributes over concatenation. |
| Tree.SelectMembers | coreylib.php:2290-2294 | A node is selected exactly when some entry holding it passes the name, namespace and direct tests. |
| Tree.DescendantsStar | coreylib.php:2276 | Selecting `*` returns a node's whole descendant list, the list a parent splices in. |
| Tree.DescendantsListed | coreylib.php:2270-2278 | Every listed node is under its own prefix, which is one of the namespaces, and entries marked direct are children of the element. |
| Tree.DirectAreChildren | coreylib.php:2291 | With the direct flag, only children of the node itself are selected. |
| Tree.AttrsIn | coreylib.php:2304 | A namespace's attributes are attributes of the element in that namespace. |
| Tree.AttrTable | coreylib.php:2301-2306 | The attribute table has one entry per namespace, in order, holding that namespace's attributes. |
| Tree.FirstNamed | coreylib.php:2329-2334 | Found exactly when an attribute has that name, and the value is that attribute's. |
| Tree.FirstAcrossFound | coreylib.php:2337-2344 | Searching across namespaces finds a value exactly when some attribute in one of the namespaces has that name. The value is such an attribute's. |
| Tree.AllAttrsUnique | coreylib.php:2316-2326 | In the map of all attributes every key occurs once. |
| Tree.XmlNode.FillMemo | coreylib.php:2270-2279 | The memo loop stores the node's full descendant list and leaves the attribute table alone. |
| Tree.XmlNode.ChildEntry | coreylib.php:2274-2276 | A child contributes itself, marked direct, followed by its own descendants, marked indirect. |
| Tree.XmlNode.Descendants | coreylib.php:2269-2297 | Returns the selection from the node's descendant list and keeps the memo holding that list. |
| Tree.XmlNode.FillTable | coreylib.php:2301-2306 | The table loop stores the attribute table and leaves the descendant memo alone. |
| Tree.XmlNode.Attribute | coreylib.php:2300-2348 | Returns the map of all attributes when no name is given. With a known namespace it returns the first match there, otherwise the first match in any namespace, or null. |
| Tree.FilterMemo | coreylib.php:2290-2294 | The filtering loop computes the selection. |
| Tree.CollectAll | coreylib.php:2317-2325 | The nested loops build the map of all attributes, with keys prefixed by a truthy namespace. |
| Tree.FindNamed | coreylib.php:2330-2334 | The loop returns the first attribute of that name. |
| Tree.FindAcross | coreylib.php:2338-2344 | The nested loops return the first attribute of that name in any namespace. |
| Query.CheckMeans | coreylib.php:2091-2112 | The test operators mean: `=` equality, `!=` inequality, `\|=` equal or prefixed by `value-`, `*=` contains a non-empty value, `~=` is a whitespace-delimited word, `$=` suffix, `^=` prefix. An unknown operator passes, since the result it keeps is the previous test's true. |
| Query.PassesFromIff | coreylib.php:2082-2119 | The test loop passes exactly when every test from that point holds, an attribute that is missing or falsy failing every test. |
| Query.HasAttributeIff | coreylib.php:2061-2120 | `has_attribute` holds exactly when the node has some attribute and every test holds. |
| Query.ExpandAppend | coreylib.php:1876-1883 | Element expansion distributes over concatenation of the working list. |
| Query.ExpandOne | coreylib.php:1878-1881 | Expanding one node gives its selected descendants. |
| Query.TruthiesMembers | coreylib.php:1914 | `array_filter` keeps exactly the truthy values. |
| Query.TruthiesAreTruthy | coreylib.php:1914 | Every kept value is truthy. |
| Query.KeepWhereMembers | coreylib.php:1945-1987 | The `:empty`, `:parent`, `:has` and `:contains` filters keep exactly the nodes of the list that pass the test. |
| Query.EmptyParentSplit | coreylib.php:1945-1966 | On a list of nodes, `:empty` and `:parent` split the list between them. |
| Query.AlternateSpec | coreylib.php:1989-2006 | `:even` keeps positions 0, 2, 4, … and `:odd` keeps positions 1, 3, 5, …, in order. |
| Query.SuffixShapes | coreylib.php:1928-2008 | `:first` and `:last` give one entry (null on an empty list), `:eq` gives one entry, `:gt`, `:lt` and unknown labels change nothing, and the filters only keep entries. |
| Query.EqPicks | coreylib.php:1942-1943 | `:eq(n)` gives the n-th entry, or null past the end. |
| Query.Limit | coreylib.php:2030-2033 | A limit of 0 keeps everything. A positive limit keeps that many from the front, and a negative one drops that many from the end. |
| Query.PhasesNonEmpty | coreylib.php:1876-2013 | A step that does anything and does not stop hands on a non-empty list. A step that does nothing hands on its input. |
| Query.GetterAnswers | coreylib.php:1900-1917 | An attribute getter returns the first truthy value of the attribute across the expanded nodes, and that value is truthy. |
| Query.AddAppends | coreylib.php:2017-2021 | An append step's results are followed by the rest of the query run from the root. |
| Query.ChainHandsOn | coreylib.php:2022-2027 | A plain step hands its results to the next step, and the limit is dropped. |
| Query.CursorBounds | coreylib.php:2016-2028 | The selector's cursor ends between the current step and one past the last. |
| Query.ExpandAll | coreylib.php:1876-1883 | The expansion loop computes the expansion. |
| Query.FilterAll | coreylib.php:1891-1898 | The test loop keeps the nodes passing `has_attribute`. |
| Query.GatherAll | coreylib.php:1901-1911 | The projection loop collects attribute values, spreading the map of all attributes. |
| Query.KeepAll | coreylib.php:1945-1987 | A node-filter suffix loop computes the filter. |
| Query.AlternateAll | coreylib.php:1989-2006 | The `:even`/`:odd` loop computes the alternation. |
| Query.ApplyOne | coreylib.php:1930-2007 | One suffix's branch computes that suffix. |
| Query.SuffixAll | coreylib.php:1928-2008 | The suffix loop applies the suffixes in table order. |
| Query.RunPhases | coreylib.php:1876-2013 | One step's three phases, as written, compute their specification. |
| Query.GetSteps | coreylib.php:1859-2036 | Run on a selector positioned at any step, `get` returns the evaluation of the rest of the query and leaves the cursor where the evaluation says. |
| Query.Query | coreylib.php:1859-1874 | `get` with a query string fails exactly when the query does not compile. Otherwise it returns the query's evaluation from the node. |
| Query.ChildrenPlain | coreylib.php:1627-1639 | For a plain one-step query, `children` is the direct expansion of the nodes. |
| Query.ExpandDirectChildren | coreylib.php:1880 | Every node in a direct expansion is a child of some node in the list. |
| Query.NodeArray.At | coreylib.php:1683-1693 | An integer offset inside the array gives that entry, and null outside it. |
| Query.NodeArray.AttrAt | coreylib.php:1683-1689 | A string offset reads that attribute of the first node, or null when there is none. |
| Query.RunFromEach | coreylib.php:1634-1637 | The loop of `children` runs the selector from each node in turn, concatenating the results in list order and leaving the cursor rewound. |
| Query.CompiledCoherent | coreylib.php:1350-1430 | Every compiled step is an expression step exactly when it holds predicate lists, and compiling for `children` makes every step direct. |
| Query.NodeArray.Children | coreylib.php:1627-1639 | `children` compiles the query with every step direct and gives, in order, the concatenated results of running it on each node. A query that does not parse yields its error. |
| Query.NodeArray.Add | coreylib.php:1646-1649 | `add` appends the query's results from the root to the array. A query that does not parse leaves it unchanged. |
| Cache.Time | coreylib.php:887-914 | -1 gives no time. A number gives now plus that many seconds. `false` gives 0 (never expires). |
| Cache.Lookup | coreylib.php:1011-1019 | A packet is found exactly when one is stored and it never expires or has not expired yet. |
| Cache.Purged | coreylib.php:1011-1018 | Reading an expired entry deletes it and nothing else. A fresh read deletes nothing. |
| Cache.Stored | coreylib.php:1035-1051 | A timeout of -1 stores nothing. Any other stores and returns the packet (created now, its expiry, the value) and leaves the other keys alone. |
| Cache.SetThenGet | coreylib.php:1003-1051 | After storing for n > 0 seconds, a later read finds the same value exactly until the expiry. |
| Cache.ZeroTimeoutIsImmediate | coreylib.php:903-914 | A timeout of 0 is expired immediately, but `false` stores forever. |
| Cache.SetOthers | coreylib.php:1035-1051 | Storing one key leaves every other key as it was. |
| Cache.FileCache.Get | coreylib.php:1003-1033 | Answers the fresh packet, if any, and purges an expired one. |
| Cache.FileCache.Set | coreylib.php:1035-1051 | Stores as Stored says. |
| Cache.FileCache.Del | coreylib.php:1053-1059 | Answers whether the key existed and removes it. |
| Cache.FileCache.Flush | coreylib.php:1061-1070 | Removes every entry. |
| Cache.StashTransparent | coreylib.php:949-980 | While the stash agrees with the file cache, reading through the stash answers what the file cache would. |
| Cache.FlushKeepsStash | coreylib.php:991-994 | After a flush, a key the stash still holds fresh is still answered, though the file cache is empty. |
| Cache.Stash.Get | coreylib.php:949-980 | A fresh stashed packet is answered from memory. Otherwise the file cache is asked, purged as it does, and a hit is stashed. A stale stash entry is kept when the file cache misses. The new memory and file cache are stated exactly, and the count of appended entries is unchanged. |
| Cache.GetTwice | coreylib.php:949-980 | A second read right after a hit is answered from memory, with the same packet. |
| Cache.DeletedMisses | coreylib.php:986-989 | After a key is removed from the stash and the file cache, reading it misses. |
| Cache.Stash.Set | coreylib.php:982-984 | Stores in the file cache and stashes what it returned, even nothing. |
| Cache.Stash.Del | coreylib.php:986-989 | Removes the key from both and answers whether the file cache had it. |
| Cache.Stash.Flush | coreylib.php:991-994 | Empties the file cache but keeps the stash; the stash gains one appended entry. |
| Cache.SaveTimeout | coreylib.php:840 | `save` uses its own timeout when it is truthy, otherwise the one recorded by `cached`. |
| Cache.Capture.Cached | coreylib.php:807-832 | A hit is a packet the stash answers that is still fresh. It shows the value and opens no buffer. A miss opens a buffer for the key and timeout. The stash's memory and file cache change as the stash's read says. |
| Cache.Capture.Save | coreylib.php:838-844 | Closes the innermost buffer and stores the captured content under its key. With no buffer open it changes nothing. |
| Cache.Capture.Cancel | coreylib.php:850-854 | Drops the innermost buffer, if any. |
| Api.BuildQuery | coreylib.php:275 | The query string is empty exactly when there are no parameters. |
| Api.CacheKey | coreylib.php:275-279 | The key is the method, the user, the password and the request URL, followed by the query string. A GET with a truthy query string carries it twice. |
| Api.MethodsApart | coreylib.php:279 | A GET and a POST never share a key. |
| Api.CredentialsRunTogether | coreylib.php:279 | User `ab` without a password and user `a` with password `b` share a key. |
| Api.GatesApart | coreylib.php:343-356 | Whenever the cache is read it may also be written. Only `false` (regenerate) writes without reading. |
| Api.CachedAnswer | coreylib.php:343-348 | A cached download is answered only when the read is allowed. |
| Api.StatusName | coreylib.php:689 | A status query starts with `is`, and a second underscore implies the first. |
| Api.StatusNameAccepts | coreylib.php:689 | Every name `is` + digits + at most two underscores is a status query, with the code of those digits, the ten-wildcard exactly when an underscore follows and the one-wildcard exactly when two do. |
| Api.StatusNameParts | coreylib.php:689 | Only such names are status queries: any name accepted is `is` + non-empty digits + at most two underscores, with that value. |
| Api.Underscores | coreylib.php:689 | Counts the trailing underscores, up to three. |
| Api.TwoAnyIsOnly200 | coreylib.php:689-708 | `is2__` holds for status 200 and nothing else. |
| Api.StatusIs | coreylib.php:690-713 | The nested loops answer the status query: false for status 0, the enumerated codes for the wildcard forms, and equality otherwise. |
| Api.Call | coreylib.php:688-717 | A status name answers the status query. Any other name is an unknown-function error naming it. |
| Api.XmlTypeIsXml | coreylib.php:651-658 | The XML content-type pattern matches exactly when the type contains `xml` in any case. |
| Api.IsXml | coreylib.php:657-665 | XML when the content type contains `xml`, or when the trimmed body is a non-empty prefix of `<?xml` (the arguments of the body check are swapped). |
| Api.DeclarationNotSniffed | coreylib.php:660 | A real document that starts with an XML declaration is not recognised by its body. |
| Api.IsJson | coreylib.php:667-686 | JSON exactly when the content type matches the JSON patterns. The body checks can never succeed. |
| Api.MergedGet | coreylib.php:214-216 | After `array_merge`, each key holds the new value if it was given, otherwise the old one, and keys stay unique. |
| Api.Merge | coreylib.php:214-216 | The merge loop computes the merge. |
| Api.DispatchOrder | coreylib.php:140-161 | A node is built only for status 200. An explicit node type is used as given. Otherwise XML comes before JSON, and JSON is chosen only by content type. |
| Api.Api.constructor | coreylib.php:105-126 | The method is the default lower-cased, or GET when that is empty. No headers and no download yet. |
| Api.Api.Header | coreylib.php:212-222 | A header is answered exactly when it is set. |
| Api.Api.SetHeader | coreylib.php:212-218 | Sets one header and nothing else; the download and the key are kept. |
| Api.Api.MergeHeaders | coreylib.php:213-215 | Merges a header array and nothing else; the download and the key are kept. |
| Api.Api.Param | coreylib.php:230-240 | A parameter is answered exactly when it is set. |
| Api.Api.SetParam | coreylib.php:230-236 | Sets one parameter and nothing else; the download and the key are kept. |
| Api.Api.MergeParams | coreylib.php:231-233 | Merges a parameter array and nothing else; the download and the key are kept. |
| Api.Api.CacheGet | coreylib.php:343-348 | Answers the stash's fresh download only when reading is allowed. The stash's memory and file cache change as its read says when reading is allowed, and not at all otherwise. |
| Api.Api.CacheSet | coreylib.php:350-356 | Stores the download only when writing is allowed: the file cache as Stored says and the stash's memory at that key. Otherwise nothing changes. |
| Api.Api.CacheDel | coreylib.php:381-387 | With caching on, deletes the key from the file cache and the stash's memory and answers whether it existed. With caching off, nothing changes. |
| Api.Api.Flush | coreylib.php:370-378 | Deletes, from the file cache and the stash's memory, exactly the key a download with the same method override would use. |
| Api.Api.Fetch | coreylib.php:272-328 | Records the key and keeps the download, method, parameters and headers. It answers a cached download when one may be read, otherwise the response. The new file cache and stash memory are the read's, followed by storing the response only for status 200 when writing is allowed. |
| Api.FetchThenCached | coreylib.php:272-356 | After a response is fetched and written back for n seconds, a later fetch within those seconds is answered from the stash with the same response. |
| Api.FlushedIsMissed | coreylib.php:343-387 | After a key is flushed, reading it misses. |
| Api.Api.Parse | coreylib.php:140-161 | Downloads at most once per object. A kept download is reused and leaves the cache alone. Without one, the download is what Fetch answers, and the cache changes as Fetch says. The answer is the dispatch on that download. Method, parameters and headers are kept. |

## Left out

- Transport: the cURL handle, request headers sent, curl options, POST bodies, authentication and `download($queue = true)` with `exec`'s parallel downloads. `Api.Api.Fetch` takes the response as a parameter.
- URL parsing in the clApi constructor (`parse_url`, `parse_str`). The constructor takes the URL, user, password and parameters already split.
- `md5` of the cache key. The key is the string it would be hashed from; the hash would change only key collisions.
- URL encoding in `http_build_query`. Parameters are joined as `k=v&…` without escaping.
- `array_merge` on integer keys (which renumbers). Headers and parameters have string keys.
- Serialization and file I/O in clFileCache: file paths, failed reads or writes, and unserialize failures (which return nothing in the source). The file cache is a map.
- The WordPress cache, `clCache::cache` building the global stash, `cacheWith`, and the per-buffer cache object. One stash is given to the capture stack.
- `strtotime` expressions such as "10 minutes" in `clCache::time`. A timeout is a number of seconds, -1 or `false`.
- The clock. `now` (and `later` for a second reading) are parameters.
- Output buffering and `echo`. `Cache.Capture.Cached` returns the shown value, and `Cache.Capture.Save` takes the captured content.
- Logging (`clApi::log`).
- Cache.Stash.Flush: appending to the stash under the next integer key is counted, not stored. A stash key that is a numeric string could collide with it in PHP.
- SimpleXML and `clNode::getNodeFor`. A document is an `Element` value, and `Api.Api.Parse` returns which node type would be built.
- clJsonNode, `grep`, `toArray`, `toJson`, `inspect`, `first` and `last` on a node, `__toString`, `__get`, `__call`, the iterators and the `size` accessors. Also `offsetSet` and `offsetUnset`, which only throw.
- Loose `==` on numeric strings in `has_attribute` and the status check. Equality is exact.
- Object identity. Nodes are values, so the direct flag is "child of this element", and two equal elements are not told apart.
- PHP fatal errors on non-nodes. Examples: a predicate step or `children` applied to attribute values, or `toArray` on a scalar result of a nested getter. The model skips non-nodes or treats a scalar as an empty list.
- Query.NodeArray.AttrAt: when the first entry is a truthy string rather than a node, PHP 7's `@$node[$offset]` reads a character of that string, while the model answers null.
- Query.Query: a getter in a chained step that returns a scalar mid-query is modelled as an empty list, where PHP fails.
- The scalar of an attribute getter on a later step. PHP wraps it in a clNodeArray whose array is that string, while the model returns the scalar itself.
- Tokens.UntokenizeTokenize: the round trip is stated for queries not starting with `TK`. Such a query already carries the mark text, which untokenize cannot tell apart from a tokenized one.
- The literal placeholder text `TKS<i>TKE`. A placeholder is one symbol, so a query that itself contains such text is read by name rather than as that token.
