# nanokar-bot core, modelled in Dafny

nanokar-bot is the chat assistant of the Nanokar nanotechnology shop. This project models the sequential logic at the centre of its three scripts and proves properties of that model.

- **server.js.** It covers building a catalog record from each scraped product tile, with its id, complete URL, cleaned price and keywords. It also covers the rule that the scraped list replaces the catalog only when it is non-empty, with the static products.json as the fallback. Finally it covers `findProduct`, the context string handed to the language model, and one `/api/chat` turn up to the model call.
- **Node.js.** It covers the text `buildKnowledgeBase` renders from products.json, and the per-session `chatHistory` map that `POST /api/chat/history` appends to.
- **enrich-products.js.** It covers the resumable batch run. The run enriches every product through the language model, falls back to a fixed record when a call fails and saves its progress after every tenth product. It then writes the enriched list, tallies the categories and removes the progress file.

Modules:

- `Wrappers` holds `Option`.
- `Js` holds the JSON-born JavaScript values (truthiness, `String(v)`, property reads, object literals).
- `Text` holds the string operations the bot uses, with JavaScript's semantics: `toLowerCase`, `includes`, `trim`, `split(/\s+/)`, `join`, the price clean-up and decimal numerals.
- `Words` holds where `split(/\s+/)` breaks a text: the words, joined by single spaces, are the text with each run of white space collapsed.
- `Seqs` holds generic sequence facts: filter, positions, map, the distinct values of a list, per-key counts and sums.
- `Catalog` models server.js. The state `globalProducts` is the field of the class `Catalog.Server`.
- `KnowledgeBase` and `ChatHistory` model Node.js. The `chatHistory` map is the field of the class `ChatHistory.Store`.
- `Enrichment` models enrich-products.js.

The outside world becomes parameters:

- The scraped tiles are a list of `(href, title, price text)` triples, or `None` when the request or the parse throws.
- The static products.json is a list of products, or `None` when the fallback fails. It fails when the file cannot be read or parsed, and also when it parses but has no `products` field: then `globalProducts.length` throws (server.js:119-120) and the catch empties the catalog (server.js:121-124). Node.js and enrich-products.js read the same file as a top-level array, which is exactly this case.
- The language model, together with `JSON.parse` of its answer, is an oracle from product position to outcome.
- The saved progress file is an optional parsed value.
- The files the batch run writes are returned as a list of writes, oldest first.

## Model

| member | source | states |
|---|---|---|
| Catalog.SiteOrigin | server.js:92 | Definition: the origin put in front of a relative link, `https://www.nanokar.com.tr`. |
| Catalog.ScrapedId | server.js:95 | Definition: the id of the record at position `index` is `NK-` followed by the decimal numeral of `index`. |
| Catalog.DescriptionSuffix | server.js:88 | Definition: the text ` ürünüdür.` that follows the name in a scraped description. |
| Catalog.ScrapedStock | server.js:101 | Definition: the stock status of every scraped record, `Mevcut`. |
| Wrappers.Option.GetOr | server.js:119-123 | Definition: the wrapped value, or the default when there is none, as the fallback's `catch` gives `[]`. |
| Catalog.CompleteUrl | server.js:92 | A missing or empty link gives the empty URL. A link starting with `http` is kept as it is. Any other link is put after `https://www.nanokar.com.tr`. A non-empty result always starts with `http`. |
| Catalog.CompleteUrlIdempotent | server.js:92 | Completing an already completed URL changes nothing. |
| Catalog.ScrapedRecord | server.js:84-102 | Definition: the record of one tile. It has the id `NK-<index>`, the trimmed title as name, the cleaned trimmed price text as price, no currency and the completed link as URL. Its description is the name followed by ` ürünüdür.`, its keywords are the lower-cased name split at white space, and its stock status is `Mevcut`. |
| Catalog.ScrapedRecordShape | server.js:84-102 | A scraped record has a trimmed name and a price of digits, commas and dots only. Its keywords are lower-case and free of white space. It has no currency, and its stock status is the truthy `Mevcut`. |
| Catalog.ScrapedIdsDistinct | server.js:95 | The ids `NK-<index>` of different positions differ. |
| Catalog.ScrapedRecords | server.js:83-103 | The scrape yields one record per tile. |
| Catalog.ScrapedRecordsAt | server.js:83-103 | Record `i` is the record built from tile `i` with index `i`. |
| Catalog.ScrapedRecordsIdsDistinct | server.js:83-103 | No two scraped records share an id. |
| Catalog.ScrapedRecordsSnoc | server.js:83-103 | Scraping one more tile appends its record to the records so far. |
| Catalog.ScrapeTiles | server.js:79-103 | The `.each` loop pushes exactly the records of the tiles, in tile order. |
| Catalog.FetchedCatalog | server.js:105-124 | Definition: the catalog `fetchProducts` leaves is the scraped records when the page yields at least one tile. Otherwise it is the static file's products, or empty when the fallback fails. |
| Catalog.Server.constructor | server.js:72 | The catalog starts empty. |
| Catalog.Server.FetchProducts | server.js:74-127 | `fetchProducts` answers true exactly when the page yields at least one tile, and then the catalog becomes the scraped records. Otherwise the catalog becomes the static file's products, or empty when that file fails. |
| Catalog.NameMatch | server.js:134-135 | Definition: the lower-cased message contains the lower-cased name, or the lower-cased name contains the lower-cased message. |
| Catalog.Matches | server.js:134-137 | Definition: the filter condition is the name rule, or a keyword list is present and some keyword, lower-cased, occurs in the lower-cased message. |
| Catalog.MatchesOf | server.js:133-138 | Definition: the filter callback of `findProduct` for a message, the filter condition as a function of the product. |
| Catalog.FindProduct | server.js:131-139 | Definition: `findProduct` filters the catalog by the filter condition. |
| Catalog.AnyKeywordIn | server.js:136 | It holds exactly when some lower-cased keyword occurs in the message. |
| Catalog.FindProductMembers | server.js:131-139 | A product is returned exactly when it is in the catalog and matches: the lower-cased message contains the lower-cased name, or the name contains the message, or some keyword occurs in the message. |
| Catalog.MatchPositions | server.js:133-138 | Definition: the positions in the catalog of the products that pass the filter, from first to last. |
| Catalog.FindProductIsSubsequence | server.js:133-138 | `findProduct` returns the catalog's products at strictly increasing positions, exactly the positions whose product matches. There is no reordering and nothing is added. |
| Catalog.FindProductConcat | server.js:133-138 | The matches of two catalogs put together are the matches of each, in order. |
| Catalog.EmptyMessageMatchesAll | server.js:135 | An empty message returns the whole catalog. |
| Catalog.NameRuleAloneWithoutKeywords | server.js:136-137 | A product without keywords, or with an empty keyword list, matches exactly under the name rule. |
| Catalog.ScrapedWordFindsProduct | server.js:131-139 | A message containing any single word of a scraped product's lower-cased, trimmed title returns that product. Those words are the keywords split at server.js:89. |
| Catalog.ScrapedKeywordsNonEmpty | server.js:86-89 | A title with visible text gives only non-empty keywords. |
| Catalog.BlankTitleMatchesEverything | server.js:134-137 | A blank title gives a record whose empty name every message matches. |
| Catalog.NotFoundContext | server.js:160 | Definition: the fixed context when nothing matched, asking the customer for contact details. |
| Catalog.FoundHeader | server.js:169 | Definition: the fixed header of the context when something matched, ending with a space and a line break. |
| Catalog.BlockSeparator | server.js:167 | Definition: the separator `\n---\n` between blocks. |
| Catalog.Anchor | server.js:165 | Definition: the HTML link `<a href="URL" target="_blank">NAME</a>` of a product. |
| Catalog.CurrencyText | server.js:166 | Definition: the currency's text when `p.currency` is truthy, and the default `TL` otherwise. |
| Catalog.NameLine | server.js:166 | Definition: the first line of a block, `ÜRÜN: ` followed by the link. |
| Catalog.PriceLine | server.js:166 | Definition: a line break, `FİYAT: `, the price's text, a space and the currency text. |
| Catalog.DetailLines | server.js:166 | Definition: the `STOK:` line with the stock status and the `AÇIKLAMA:` line with the description, each after a line break. |
| Catalog.PriceLineQuotesCurrency | server.js:166 | For every product, a falsy currency gives the price line `\nFİYAT: <price> TL`. A truthy currency gives `\nFİYAT: <price> <currency>`. |
| Catalog.ProductBlock | server.js:165-166 | Definition: the block of one match is its `ÜRÜN:` line with the HTML link, then its `FİYAT:` line with the price and the currency or `TL`, then its `STOK:` and `AÇIKLAMA:` lines. |
| Catalog.ReplyContext | server.js:160-169 | Definition: without matches, the context is the fixed "not found" text. With matches, it is the "found" header, a line break and the blocks joined by `\n---\n`. |
| Catalog.ReplyContextNotFoundIff | server.js:159-170 | The fixed "not found, ask for contact details" context is used exactly when nothing matched. |
| Catalog.ProductBlocks | server.js:163-167 | Definition: the `found.map(p => ...)` of the handler, one block per match in match order. |
| Catalog.BlockOffset | server.js:163-169 | Definition: where the block of match `i` begins in the context, after the header and the earlier blocks and separators. |
| Catalog.ProductBlocksAt | server.js:163-167 | Block `i` is the block of the `i`-th match. |
| Catalog.ReplyContextBlockAt | server.js:162-169 | With matches, the context starts with the "found" header. The block of match `i` sits at its offset, and the first block comes right after the header. |
| Catalog.ReplyContextBlockFollows | server.js:163-169 | Each block is followed by `\n---\n` and the next match's block. The last block ends the context. |
| Catalog.ProductBlockLayout | server.js:165-166 | Every block opens with `ÜRÜN: ` and the product's HTML link. The price line follows right after. |
| Catalog.ScrapedBlockQuotesPriceInTL | server.js:166 | A scraped product carries no currency, so its price line quotes the cleaned price in `TL`. |
| Catalog.SystemPrompt | server.js:174 | Definition: the fixed system prompt, with the assistant's role, the contact details and the four rules. |
| Catalog.SystemMessage | server.js:174 | Definition: the system message is the system prompt, two line breaks and the context of the matches. |
| Catalog.SystemMessageLayout | server.js:174 | The system message starts with the fixed system prompt. Two line breaks follow it, and the context ends the message. |
| Catalog.LastContent | server.js:151-152 | Definition: reading the last message's `content` throws for an empty list or a `null` or `undefined` last entry. Otherwise it gives that property. |
| Catalog.ChatTurn | server.js:156-174 | Definition: a `null` or `undefined` lead result fails. A truthy `saved` answers with thanks. A message that is not a string fails at `toLowerCase`. Otherwise the model is asked with the matches and the system message built from them. |
| Catalog.LeadThanksPrefix | server.js:157 | Definition: the fixed opening `Bilgilerinizi aldım ` of the thanks message. |
| Catalog.LeadThanksSuffix | server.js:157 | Definition: the fixed promise, after the name, that a sales representative will call back soon. |
| Catalog.LeadThanksMessage | server.js:157 | Definition: the thanks message is the fixed opening, `String(lead.name)` and the fixed promise. |
| Catalog.LeadThanksNamesTheLead | server.js:157 | The thanks message starts with `Bilgilerinizi aldım `, then carries `String(lead.name)`, then ends with the fixed promise that a sales representative will call back. |
| Catalog.CheckAndSaveLeadAsWritten | server.js:144 | Definition: the lead hook as written is an empty async function, so awaiting it gives `undefined`. This is the as-written half of the finding. |
| Catalog.CheckAndSaveLead | server.js:144 | The corrected lead hook returns an object whose `saved` is falsy. |
| Catalog.SavedLeadShortCircuits | server.js:156-157 | A truthy `lead.saved` answers with the thanks message for `lead.name` and never reaches matching. |
| Catalog.StubLeadFailsEveryTurn | server.js:144-157 | The hook as written resolves to `undefined`, and reading `lead.saved` then makes every turn fail with status 500. |
| Catalog.UnsavedLeadReachesMatching | server.js:156-174 | With a lead result that saved nothing, a text message is matched against the catalog. The model is then asked with the system message that carries those matches' context. |
| Catalog.Server.HandleChat | server.js:149-170 | A turn with no readable last message fails and leaves the catalog alone. Otherwise an empty catalog is fetched first, and the reply is that turn over the catalog as it then stands. The lead check is the corrected hook `Catalog.CheckAndSaveLead` (see Findings); with the hook as written, every turn with a readable last message fails. |
| Text.IsSpace | server.js:86-89 | Definition: the ECMAScript white space and line terminator code points, which `trim` removes and `\s` matches. |
| Text.LowerChar | server.js:132 | Definition: lower-casing one character maps the ASCII capitals and the Turkish capitals Ç, Ğ, Ö, Ş and Ü to their small letters. Every other character is kept. |
| Text.StartsWith | server.js:92 | Definition: `s.startsWith(p)` holds when `p` is the first `|p|` characters of `s`. |
| Text.EndsWith | server.js:167-174 | Definition: `p` is the last `|p|` characters of `s`. The layout lemmas use it to say what ends the context and the system message. |
| Text.OccursAt | server.js:135-136 | Definition: `p` occurs in `s` starting at position `i`. |
| Text.Contains | server.js:135-136 | Definition: `s.includes(p)` holds when `p` occurs in `s` at some position. |
| Text.TrimStart | server.js:86 | Definition: drops the white space at the start. The result is no longer than the input, only white space was dropped, and it does not start with white space. |
| Text.TrimEnd | server.js:86 | Definition: drops the white space at the end. The result is no longer than the input, only white space was dropped, and it does not end with white space. |
| Text.IsLower | server.js:132 | Definition: lower-casing leaves the text as it is. |
| Text.Lower | server.js:132 | Lower-casing keeps the length and yields text that lower-casing leaves unchanged. |
| Text.TrimStartIsSuffix | server.js:86 | What is left after dropping leading white space is a suffix of the input. |
| Text.TrimEndIsPrefix | server.js:86 | What is left after dropping trailing white space is a prefix of the input. |
| Text.IsCoreAt | server.js:86 | Definition: `r` is the slice of `s` at position `i`, and only white space of `s` lies outside it. |
| Text.Trim | server.js:86 | `trim` gives a slice of the input with only white space outside it, and neither end of the result is white space. |
| Text.SplitFrom | server.js:89 | Definition: the split of the rest `s` when the current word is `word`. Each run of white space ends the current word, and the last word ends the list. The result is never empty. |
| Text.SplitOnSpaces | server.js:89 | Definition: `s.split(/\s+/)` is the split of `s` from an empty first word. A leading run of white space gives an empty first word, and a trailing run an empty last word. |
| Text.HasNoSpace | server.js:89 | Definition: a word holds no white space. |
| Text.RemoveSpaces | server.js:89 | Definition: the reference text for the split's contents, `s` with all its white space removed. |
| Text.Concat | server.js:89 | Definition: the words written one after the other, with nothing between them. |
| Text.SplitWordsHaveNoSpace | server.js:89 | No word of `split(/\s+/)` contains white space. |
| Text.SplitLosesOnlySpaces | server.js:89 | Joining the words back together gives the input without its white space. |
| Words.CollapseSpaces | server.js:89 | Definition: the reference text for the split, `s` with each maximal run of white space replaced by one space. |
| Words.SplitBreaksAtSpaceRuns | server.js:89 | The words, joined by single spaces, are the input with each maximal run of white space replaced by one space. So the words break exactly at the runs. |
| Words.WordEnd | server.js:89 | Definition: the length of the first word of `s`, which is the position of its first white space, or its length. |
| Words.JoinSpaceInjective | server.js:89 | Two non-empty lists of words free of white space that join, with single spaces, into the same text are equal. |
| Words.SplitIsDeterminedByBreaks | server.js:89 | The split is the only non-empty list of words free of white space that joins, with single spaces, into the collapsed input. |
| Text.SplitTrimmedWordsNonEmpty | server.js:89 | Splitting a trimmed text gives no empty word. |
| Text.SplitKeepsLower | server.js:89 | Splitting lower-case text gives lower-case words. |
| Text.IsPriceChar | server.js:97 | Definition: an ASCII digit (what `\d` matches), a comma or a dot. |
| Text.CleanPrice | server.js:97 | The cleaned price is no longer than the input and holds only ASCII digits, commas and dots. |
| Text.CleanPriceKeepsPriceChars | server.js:97 | Cleaning keeps every digit, comma and dot as often as it occurs and drops everything else. |
| Text.CleanPriceConcat | server.js:97 | Cleaning works character by character, so it keeps the order of what it keeps. |
| Text.CleanPriceIdempotent | server.js:97 | Cleaning twice is cleaning once. |
| Text.DigitChar | server.js:95 | Definition: the decimal digit character of a number below ten. |
| Text.IsDigits | server.js:95 | Definition: the text holds only ASCII decimal digits. |
| Text.DecimalValue | server.js:95 | Definition: the reference reading of a digit string as a number, most significant digit first. |
| Text.NatToString | server.js:95 | The decimal numeral of the index is a non-empty string of digits, with a leading zero only for 0. |
| Text.DecimalRoundTrip | server.js:95 | Reading back the numeral of `n` gives `n`. |
| Text.NatToStringInjective | server.js:95 | Different indices have different numerals. |
| Js.Truthy | server.js:157 | Definition: JavaScript truthiness. `false`, `0`, `""`, `null` and `undefined` are falsy, and every array and object is truthy. |
| Js.Get | server.js:157 | Definition: `v.key` is the property's value on an object that has it, and `undefined` otherwise. |
| Js.Props | enrich-products.js:125-134 | Definition: the properties of an object literal written field by field. A later field with the same key wins. |
| Js.ToText | server.js:165-166 | Definition: `String(v)` as a template literal writes it. `undefined`, `null` and booleans become their names, and integers their decimal numerals. Strings are written as they are, arrays as their elements joined by commas with `null` and `undefined` left empty, and objects as `[object Object]`. |
| Text.Join | server.js:167 | Definition: `xs.join(sep)` is empty for an empty list, the element itself for one element, and otherwise the first element, `sep` and the join of the rest. |
| Text.JoinOffset | server.js:167 | Definition: where element `i` begins in `xs.join(sep)`, after the earlier elements and one `sep` after each. |
| Text.JoinPlaces | server.js:163-167 | `join(sep)` puts element `i` at its offset, puts `sep` right after every element but the last, and ends with the last element. |
| Text.Framed | Node.js:48-76 | Definition: a fixed header, the list joined by the separator, and a fixed footer, as the knowledge-base template frames `products.map(...).join('\n')`. |
| Text.FramedPlaces | Node.js:48-76 | A list joined between a fixed header and footer puts element `i` at its offset after the header, a separator after every element but the last, and the footer after the last. |
| KnowledgeBase.Header | Node.js:48-57 | Definition: the fixed company header, up to and including the `## Ürünler` line. |
| KnowledgeBase.Footer | Node.js:65-76 | Definition: the fixed FAQ after the product list, up to the end of the text. |
| KnowledgeBase.Heading | Node.js:58-59 | Definition: a line break and the `### ` heading with `String(p.name)`. |
| KnowledgeBase.FactLines | Node.js:60-62 | Definition: the price line in `TL`, then the purity and usage lines. |
| KnowledgeBase.StockLine | Node.js:63 | Definition: the `- Stok: ` line with the stock label. |
| KnowledgeBase.DescriptionLine | Node.js:64-65 | Definition: the description line and the line break that ends the section. |
| KnowledgeBase.Section | Node.js:58-65 | Definition: the section of one entry is a line break and its `### ` name heading, then its price line in `TL`, purity, usage, stock and description lines, and a closing line break. |
| KnowledgeBase.Build | Node.js:48-76 | Definition: the text is the fixed header up to `## Ürünler` and a line break, then the sections joined by line breaks, then the fixed FAQ. |
| KnowledgeBase.StockLabel | Node.js:63 | The stock reads `Mevcut` exactly when `p.stock` is truthy, and `Tükendi` otherwise. |
| KnowledgeBase.FrameIsConstant | Node.js:48-76 | Whatever the products, the text starts with the fixed company header and ends with the fixed FAQ. |
| KnowledgeBase.Sections | Node.js:58-65 | Definition: the `products.map(p => ...)` of the template, one section per entry in file order. |
| KnowledgeBase.SectionsAt | Node.js:58-65 | Section `i` is the rendering of product `i`. |
| KnowledgeBase.SectionsInOrder | Node.js:58-65 | The sections appear in product order. Each is followed by one line break and the next section, and the last is followed by the FAQ. |
| KnowledgeBase.SectionLayout | Node.js:59-64 | Every section opens with a `### ` heading carrying the product's name. Its stock line reads `Mevcut` exactly for a truthy stock. |
| ChatHistory.HistoryOf | Node.js:272-276 | Definition: the list kept for a session, or the empty list for a session never posted to. |
| ChatHistory.Appended | Node.js:272-276 | Definition: posting to a session sets its list to its old list, or the empty one when it has none, with the message appended. |
| ChatHistory.Store.constructor | Node.js:267 | The history map starts empty. |
| ChatHistory.Store.Post | Node.js:269-278 | A post sets the session's list to its old list, or the empty one, with the message appended. Every other entry is unchanged, and the handler answers success. |
| ChatHistory.AppendGrowsByOne | Node.js:272-276 | The posted session's list grows by exactly one. Its old entries are kept, and the message is the last entry. |
| ChatHistory.AppendLeavesOthers | Node.js:272-276 | Every other session keeps its list, and the set of sessions gains only the posted one. |
| ChatHistory.FirstPostCreates | Node.js:272-276 | The first post of an unseen session creates its list holding just that message. |
| ChatHistory.Replay | Node.js:267-278 | Definition: the map after a run of posts into the empty history, oldest first. |
| ChatHistory.PostedTo | Node.js:269-276 | Definition: the independent reference for a session's list, the messages posted to that session in posting order. |
| ChatHistory.ReplayKeepsPostOrder | Node.js:267-278 | After any run of posts, a session's list holds exactly the messages posted to it, in posting order. Only sessions that were posted to have a list. |
| Js.PropsAt | enrich-products.js:125-134 | A field of an object literal that no later field repeats is read back as the value written. |
| Enrichment.Unreadable | enrich-products.js:100-118 | Definition: reading a property of `null` or `undefined` throws a TypeError. |
| Enrichment.ReadError | enrich-products.js:100-118 | Definition: V8's message for reading property `key` of `null` or `undefined`. |
| Seqs.Filter | server.js:133 | Definition: `xs.filter(f)`, the elements that pass in their order. |
| Seqs.Positions | server.js:133 | Definition: the positions of the elements that pass `f`, from first to last. |
| Seqs.Shift | server.js:133 | Definition: every position moved one further on. |
| Seqs.IsPrefix | enrich-products.js:147-161 | Definition: `p` is the first `|p|` elements of `s`. |
| Seqs.MapWithIndex | server.js:83-103 | Definition: each element transformed with its position, as the `.each((index, element) => ...)` that pushes one record per tile does. |
| Seqs.Map | server.js:163 | Definition: `xs.map(f)`, one transformed element per element, in order. |
| Seqs.NoDup | enrich-products.js:176 | Definition: no value occurs twice in the list. |
| Seqs.Distinct | enrich-products.js:176 | Definition: `[...new Set(xs)]`, every value once, in the order of its first occurrence. |
| Seqs.Occurrences | enrich-products.js:176 | Definition: how many times a value occurs in the list. |
| Seqs.FirstIndex | enrich-products.js:176 | Definition: where a value first occurs in the list. |
| Seqs.KeyIs | enrich-products.js:186 | Definition: the test `x => f(x) === k`. |
| Seqs.CountKey | enrich-products.js:186 | Definition: `xs.filter(x => f(x) === k).length`. |
| Seqs.Counts | enrich-products.js:185-188 | Definition: the count of each key, in the order of the keys. |
| Seqs.Sum | enrich-products.js:185-188 | Definition: the sum of a list of counts. |
| Enrichment.SubstringFailure | enrich-products.js:100 | Definition: `productName.substring(0, 60)` succeeds on a string. On `null` or `undefined` it throws the property read error, and on any other value it throws "is not a function". |
| Enrichment.Failure | enrich-products.js:100-122 | Definition: the exception `enrichProduct` catches, in the order of the steps. It is the substring failure first, then the model call throwing, then reading `category` of a `null` or `undefined` parsed answer. |
| Enrichment.FallbackRecord | enrich-products.js:125-134 | Definition: the `catch` block's object literal, with its eight fields in writing order. |
| Enrichment.FallbackNote | enrich-products.js:132 | Definition: the fixed note `Otomatik zenginleştirme başarısız`. |
| Enrichment.FallbackFields | enrich-products.js:125-134 | Definition: the eight fields of the `catch` block's literal, in writing order: the name, `Belirsiz`, an empty object, three empty arrays, the fixed note and the message. |
| Enrichment.EnrichProduct | enrich-products.js:49-136 | The result is never `null` or `undefined`. When no step throws, it is the parsed answer itself. |
| Enrichment.FailureGivesFallback | enrich-products.js:122-135 | A failed enrichment gives the product's own name and category `Belirsiz`. `properties` is empty, and `applications`, `benefits` and `project_types` are empty arrays. `technical_notes` is the fixed note, and `error` is the exception's message. |
| Enrichment.NonStringNameNeverReachesModel | enrich-products.js:100 | A name that is not a string fails at `substring`, whatever the model would answer. |
| Enrichment.ParsedAnswerKept | enrich-products.js:116-120 | A string name with a readable parsed answer gives that answer unchanged. |
| Enrichment.Resumes | enrich-products.js:146 | Definition: `progress && progress.products` holds when a progress file was loaded and has a `products` list. The list is truthy even when empty. |
| Enrichment.StartIndex | enrich-products.js:142-150 | Definition: the start index is the saved `processedCount` when the run resumes, and 0 otherwise. |
| Enrichment.Prior | enrich-products.js:141-150 | Definition: the records kept from before are the saved `products` when the run resumes, and none otherwise. |
| Enrichment.EnrichRange | enrich-products.js:153-157 | The loop makes one record per product of the range. |
| Enrichment.EnrichRangeAt | enrich-products.js:153-157 | Record `j` of a range is the record of product `lo + j`. |
| Enrichment.EnrichRangeSplit | enrich-products.js:153-157 | The records of adjacent ranges join into the records of the whole range. |
| Enrichment.Checkpoints | enrich-products.js:153-163 | Definition: an iteration that brings the count to a multiple of ten saves a checkpoint of the records so far. The checkpoints come in loop order. |
| Enrichment.FinalRecords | enrich-products.js:145-157 | Definition: the records after the loop are the saved records followed by one record per product from the start index on. A start past the end adds none. |
| Enrichment.RunCheckpoints | enrich-products.js:153-163 | Definition: the checkpoints of the loop from the start index, or none when the start is past the end. |
| Enrichment.TallyCrashes | enrich-products.js:176-188 | Definition: the tally throws when some record is `null` or `undefined`, since reading its `category` throws. |
| Enrichment.Category | enrich-products.js:176 | Definition: the `category` property of a record. |
| Enrichment.Categories | enrich-products.js:176 | Definition: the distinct categories, in first-seen order, of the records. |
| Enrichment.CategoryCounts | enrich-products.js:185-188 | Definition: for each category, the number of records in it. |
| Enrichment.ProgressFileAtEnd | enrich-products.js:192 | Definition: the progress file exists at the end when it existed at the start or a checkpoint created it. |
| Enrichment.RunOutcome | enrich-products.js:139-197 | Definition: a negative start index crashes reading `products[i].name`. A record whose category cannot be read crashes the tally. Otherwise the run completes with the records, the categories and the counts. |
| Enrichment.RunWrites | enrich-products.js:139-197 | Definition: the writes are the checkpoints, then the enriched list, then the removal of the progress file when the tally did not crash and the file exists. A negative start writes nothing. |
| Enrichment.EnrichAll | enrich-products.js:139-197 | The run ends with the outcome and the list of file writes that the specification functions `RunOutcome` and `RunWrites` give. |
| Enrichment.CheckpointsSound | enrich-products.js:159-163 | Every checkpoint holds the number of products and a count that is a multiple of ten past the start. Its list is the records as they stand after that many products. |
| Enrichment.CheckpointsAscend | enrich-products.js:153-163 | Definition: of any two checkpoints in a list of writes, the later one has more products done. |
| Enrichment.CheckpointsIncrease | enrich-products.js:159-163 | Checkpoints come in increasing order of products done. |
| Enrichment.CheckpointsComplete | enrich-products.js:159-163 | A checkpoint is written for every multiple of ten past the start. |
| Enrichment.RunWritesLayout | enrich-products.js:153-194 | A run writes its checkpoints first, then the enriched list. Last, and only possibly, it removes the progress file. |
| Enrichment.RunCheckpointFacts | enrich-products.js:29-36 | Each checkpoint of a run has `totalProducts` equal to the number of products and `processedCount` equal to `i + 1`, a multiple of ten. Its `products` are the records after that append, a prefix of the final list. |
| Enrichment.RunCheckpointsComplete | enrich-products.js:160-163 | A run writes a checkpoint for every multiple of ten past its start, up to the number of products. |
| Enrichment.RunCheckpointsAscend | enrich-products.js:153-163 | A run's checkpoints are in increasing order of products done. |
| Enrichment.RemovalOnlyAfterCompletion | enrich-products.js:191-194 | The progress file is removed exactly when the run completes and the file exists by then. The file exists when it was there at the start or a checkpoint created it. The enriched list is always written. |
| Enrichment.FinalRecordsShape | enrich-products.js:144-157 | The saved records are a prefix of the final list, which has one more record per product from the start index on. |
| Enrichment.FinalRecordAt | enrich-products.js:145-157 | After the saved records, record `|prior| + j` is the record of product `start + j`. |
| Enrichment.RangeReadable | enrich-products.js:153-157 | No freshly enriched record is `null` or `undefined`. |
| Enrichment.FreshRunCompletes | enrich-products.js:139-197 | A run without saved products starts at 0 with no records, enriches every product and always completes. |
| Enrichment.ResumeFromCheckpointAgrees | enrich-products.js:145-163 | Resuming from any checkpoint of a run gives the same final list and the same tally, provided the model answers each product as before. |
| Enrichment.CategoriesAreDistinct | enrich-products.js:176 | The category list has no repeats and holds exactly the categories of the records. |
| Enrichment.CategoriesInFirstSeenOrder | enrich-products.js:176 | The categories are in the order in which each first appears among the records. |
| Enrichment.CategoryCountAt | enrich-products.js:185-188 | There is one count per category. Each count is the number of records in that category, at least one. |
| Enrichment.CountsCoverAllRecords | enrich-products.js:176-188 | The per-category counts add up to the number of records. |

## Left out

- HTTP, network and process plumbing is not modelled. This covers the Express app and its routes other than the chat and history handlers, CORS, multer uploads and `listen`. It also covers the axios request, the cheerio selectors and the calls to OpenAI, Claude, Gemini, Whisper and text-to-speech, as well as the Google speech clients, Sheets and mail. These are foreign services. The model starts from the strings the selectors extract and stops at the model call.
- File reads and writes, `dotenv`, credential setup and directory creation are not modelled. Their results are parameters or entries of the write list.
- The `/api/voice-chat` route (server.js:185-187) is not modelled. It is a fixed 501 answer with no logic.
- Timers, clocks and console output are not modelled: `delay`, `setTimeout`, `Date.now`, the duration and estimate lines, the `lastUpdate` time of a checkpoint and every log line.
- The `unhandledRejection` handler and `process.exit` are not modelled. An exception that escapes the run is the `Crashed` outcome.
- Text.Lower: lower-cases ASCII letters and the Turkish capitals Ç, Ğ, Ö, Ş and Ü only. Unicode case mapping, in particular `İ`, which lowers to two code units, is not modelled.
- Numbers are integers. Floating point and `NaN` are not modelled.
- JSON values are compared structurally. The object identity that `new Set` and `===` use on object-valued categories is not modelled. The same holds for the keys of the `chatHistory` `Map` (Node.js:272-276): `Map` compares object keys by identity, so an object-valued `sessionId` posted twice makes two entries, while `ChatHistory.ReplayKeepsPostOrder` merges the posts of structurally equal ids into one list.
- `JSON.stringify` of the progress and output files is not modelled. The writes carry the values themselves.
- The names of the products to enrich are given directly. A `null` entry of products.json, which makes `product.name` throw, is not modelled.
- A `null` or `undefined` entry of products.json is not modelled for the knowledge base either. For such an entry, `p.name` throws inside `products.map` (Node.js:58-59), so `buildKnowledgeBase()` rejects instead of returning text. `KnowledgeBase.Entry` has no value for it, so `KnowledgeBase.Build` always gives text.
- The saved progress has an integer `processedCount`. A progress file that does not parse, and a missing or non-numeric `processedCount`, are not modelled.
- The model's answer for a product depends only on its position. That is why a resumed run is compared with a first run that got the same answers.
- A products.json entry whose `name` is missing or not a string, or whose `keywords` is truthy but not an array or holds a non-string, is not modelled. For such an entry `findProduct` throws at `toLowerCase` or `some` (server.js:134, server.js:136), and every later turn then answers status 500 (server.js:178-180). The product type gives every entry a string name and an optional list of string keywords.
- A request body whose `messages` is not an array is not modelled. An empty array or a `null` last entry fails with status 500.
- The request that `fetchProducts()` starts at start-up, concurrently with the first requests, is not modelled. `HandleChat` fetches only when the catalog is empty, as the handler does.
- `saveToGoogleSheets` and `sendLeadEmail` are not modelled. They are empty stubs that the modelled code never calls.
- Catalog.ScrapedRecords: its own contract gives only the length. Record by record, the content is stated by `Catalog.ScrapedRecordsAt`.
- Enrichment.EnrichRange: its own contract gives only the length. Record by record, the content is stated by `Enrichment.EnrichRangeAt`.

## Findings

| source | as written | input that shows it | evidently intended | confidence | as-written member | corrected member |
|---|---|---|---|---|---|---|
| server.js:144, server.js:156-157 | `checkAndSaveLead` is an empty async function, so `await` gives `undefined`, and reading `lead.saved` throws a TypeError, which the handler answers with status 500 | any `/api/chat` request whose last entry is not `null` or `undefined` | a lead result object; when nothing is saved, the turn goes on to product matching and the model call | not executed | Catalog.StubLeadFailsEveryTurn | Catalog.UnsavedLeadReachesMatching |
