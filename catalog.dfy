/**
 * The catalog core of server.js: the record the scraper builds for each product tile,
 * `findProduct`, the context string handed to the model, and the `/api/chat` turn around them.
 */
module Catalog {
  import opened Wrappers
  import opened Text
  import Js
  import Seqs

  // ----- Data model -----

  /**
   * One entry of `globalProducts`. Scraped entries set every field; entries of the static
   * products.json may lack any field but `name`, and a missing field reads as `undefined`.
   */
  datatype Product = Product(
    id: Js.Value,
    name: string,
    price: Js.Value,
    currency: Js.Value,
    url: Js.Value,
    description: Js.Value,
    keywords: Option<seq<string>>, // None when the field is absent or falsy
    stockStatus: Js.Value)

  /** What the scraper reads from one product tile: the title link's `href` (None when there is none), the title text, the price text. */
  datatype Tile = Tile(href: Option<string>, title: string, priceText: string)

  function SiteOrigin(): string { "https://www.nanokar.com.tr" }
  function ScrapedStock(): string { "Mevcut" }
  function DescriptionSuffix(): string { " ürünüdür." }

  // ----- Building the scraped records (server.js:84-102) -----

  /** The absolute URL of a tile's link: none stays empty, an `http...` link is kept, any other link is put under the site's origin. */
  function CompleteUrl(link: Option<string>): (r: string)
    ensures r == "" <==> link.None? || link.value == ""
    ensures r != "" ==> StartsWith(r, "http")
    ensures link.Some? && StartsWith(link.value, "http") ==> r == link.value
    ensures link.Some? && link.value != "" && !StartsWith(link.value, "http") ==> r == SiteOrigin() + link.value
  {
    match link
    case None => ""
    case Some(l) =>
      if l == "" then ""
      else if StartsWith(l, "http") then l
      else
        assert (SiteOrigin() + l)[..4] == SiteOrigin()[..4];
        SiteOrigin() + l
  }

  /** Completing a completed URL changes nothing. */
  lemma CompleteUrlIdempotent(link: Option<string>)
    ensures CompleteUrl(Some(CompleteUrl(link))) == CompleteUrl(link)
  {
  }

  /** The id of the record scraped at position `index`: `NK-` and the position in decimal. */
  function ScrapedId(index: nat): Js.Value {
    Js.Str("NK-" + NatToString(index))
  }

  /** The record pushed for the tile at position `index`. */
  function ScrapedRecord(t: Tile, index: nat): Product {
    var name := Trim(t.title);
    Product(
      id := ScrapedId(index),
      name := name,
      price := Js.Str(CleanPrice(Trim(t.priceText))),
      currency := Js.Undefined,
      url := Js.Str(CompleteUrl(t.href)),
      description := Js.Str(name + DescriptionSuffix()),
      keywords := Some(SplitOnSpaces(Lower(name))),
      stockStatus := Js.Str(ScrapedStock()))
  }

  /**
   * A scraped record has a trimmed name, a price of digits, commas and dots only, keywords that are
   * lower-case and free of white space, no currency, and the stock status `Mevcut`.
   */
  lemma ScrapedRecordShape(t: Tile, index: nat)
    ensures var p := ScrapedRecord(t, index);
      && (p.name == [] || (!IsSpace(p.name[0]) && !IsSpace(p.name[|p.name| - 1])))
      && p.price.Str? && (forall i :: 0 <= i < |p.price.s| ==> IsPriceChar(p.price.s[i]))
      && p.keywords.Some?
      && (forall i :: 0 <= i < |p.keywords.value| ==> HasNoSpace(p.keywords.value[i]) && IsLower(p.keywords.value[i]))
      && !Js.Truthy(p.currency) && p.stockStatus == Js.Str(ScrapedStock()) && Js.Truthy(p.stockStatus)
  {
    var name := Trim(t.title);
    SplitWordsHaveNoSpace(Lower(name));
    SplitKeepsLower(Lower(name));
  }

  /** Records built at different positions have different ids. */
  lemma ScrapedIdsDistinct(i: nat, j: nat)
    requires i != j
    ensures ScrapedId(i) != ScrapedId(j)
  {
    var a, b := NatToString(i), NatToString(j);
    if "NK-" + a == "NK-" + b {
      assert ("NK-" + a)[3..] == a && ("NK-" + b)[3..] == b;
      NatToStringInjective(i, j);
    }
  }

  /** The records scraped from `tiles`: one per tile, in tile order, numbered by position. */
  function ScrapedRecords(tiles: seq<Tile>): (r: seq<Product>)
    ensures |r| == |tiles|
  {
    Seqs.MapWithIndex(ScrapedRecord, tiles)
  }

  /** Scraping one more tile appends its record. */
  lemma ScrapedRecordsSnoc(tiles: seq<Tile>, i: nat)
    requires i < |tiles|
    ensures ScrapedRecords(tiles[..i + 1]) == ScrapedRecords(tiles[..i]) + [ScrapedRecord(tiles[i], i)]
  {
    Seqs.MapWithIndexPrefixSnoc(ScrapedRecord, tiles, i);
  }

  /** The record at position `i` is the one built from tile `i` with number `i`. */
  lemma ScrapedRecordsAt(tiles: seq<Tile>, i: nat)
    requires i < |tiles|
    ensures ScrapedRecords(tiles)[i] == ScrapedRecord(tiles[i], i)
  {
    Seqs.MapWithIndexAt(ScrapedRecord, tiles, i);
  }

  /** No two scraped records share an id. */
  lemma ScrapedRecordsIdsDistinct(tiles: seq<Tile>)
    ensures forall i, j :: 0 <= i < j < |tiles| ==> ScrapedRecords(tiles)[i].id != ScrapedRecords(tiles)[j].id
  {
    forall i, j | 0 <= i < j < |tiles|
      ensures ScrapedRecords(tiles)[i].id != ScrapedRecords(tiles)[j].id
    {
      ScrapedRecordsAt(tiles, i);
      ScrapedRecordsAt(tiles, j);
      ScrapedIdsDistinct(i, j);
    }
  }

  /** The `.each` loop of `fetchProducts`. */
  method ScrapeTiles(tiles: seq<Tile>) returns (scraped: seq<Product>)
    ensures scraped == ScrapedRecords(tiles)
  {
    scraped := [];
    var index := 0;
    while index < |tiles|
      invariant index <= |tiles| && scraped == ScrapedRecords(tiles[..index])
    {
      ScrapedRecordsSnoc(tiles, index);
      scraped := scraped + [ScrapedRecord(tiles[index], index)];
      index := index + 1;
    }
    assert tiles[..index] == tiles;
  }

  /** The catalog `fetchProducts` leaves behind: the scraped records when the page yields at least one tile, otherwise the static file's products, or nothing. */
  function FetchedCatalog(scrape: Option<seq<Tile>>, fallback: Option<seq<Product>>): seq<Product> {
    if scrape.Some? && |scrape.value| > 0 then ScrapedRecords(scrape.value) else fallback.GetOr([])
  }

  // ----- findProduct (server.js:131-139) -----

  /** `keywords.some(k => message.includes(k.toLowerCase()))`. */
  function AnyKeywordIn(message: string, keywords: seq<string>): (r: bool)
    ensures r <==> exists i :: 0 <= i < |keywords| && Contains(message, Lower(keywords[i]))
  {
    if keywords == [] then false
    else if Contains(message, Lower(keywords[0])) then true
    else
      var found := AnyKeywordIn(message, keywords[1..]);
      assert forall i :: 1 <= i < |keywords| ==> keywords[i] == keywords[1..][i - 1];
      found
  }

  /** The name rule: the lower-cased message contains the lower-cased name, or the other way round. */
  predicate NameMatch(message: string, name: string) {
    Contains(Lower(message), Lower(name)) || Contains(Lower(name), Lower(message))
  }

  /** The filter condition of `findProduct`: the name rule, or some keyword in the message. */
  predicate Matches(message: string, p: Product) {
    NameMatch(message, p.name) || (p.keywords.Some? && AnyKeywordIn(Lower(message), p.keywords.value))
  }

  /** The filter callback of `findProduct` for `message`. */
  function MatchesOf(message: string): Product -> bool {
    p => Matches(message, p)
  }

  /** `findProduct(message)` over the catalog `products`. */
  function FindProduct(message: string, products: seq<Product>): seq<Product> {
    Seqs.Filter(MatchesOf(message), products)
  }

  /** A product is returned exactly when it is in the catalog and matches. */
  lemma FindProductMembers(message: string, products: seq<Product>, p: Product)
    ensures p in FindProduct(message, products) <==> p in products && Matches(message, p)
  {
    Seqs.FilterMembers(MatchesOf(message), products, p);
  }

  /** Matching is decided product by product: the matches of a concatenation are the matches of each part, in order. */
  lemma FindProductConcat(message: string, a: seq<Product>, b: seq<Product>)
    ensures FindProduct(message, a + b) == FindProduct(message, a) + FindProduct(message, b)
  {
    Seqs.FilterConcat(MatchesOf(message), a, b);
  }

  /** The positions of the matching products, from first to last. */
  function MatchPositions(message: string, products: seq<Product>): seq<nat> {
    Seqs.Positions(MatchesOf(message), products)
  }

  /**
   * `findProduct` returns a subsequence of the catalog: the products at strictly increasing
   * positions, exactly the positions whose product matches, and nothing else.
   */
  lemma FindProductIsSubsequence(message: string, products: seq<Product>)
    ensures var pos := MatchPositions(message, products);
      && |FindProduct(message, products)| == |pos|
      && (forall k :: 0 <= k < |pos| ==> pos[k] < |products| && FindProduct(message, products)[k] == products[pos[k]])
      && (forall j, k :: 0 <= j < k < |pos| ==> pos[j] < pos[k])
      && (forall i :: 0 <= i < |products| ==> (i in pos <==> Matches(message, products[i])))
  {
    var pos := MatchPositions(message, products);
    Seqs.PositionsLength(MatchesOf(message), products);
    forall k | 0 <= k < |pos|
      ensures pos[k] < |products| && FindProduct(message, products)[k] == products[pos[k]]
    {
      Seqs.FilterAtPosition(MatchesOf(message), products, k);
    }
    forall j, k | 0 <= j < k < |pos|
      ensures pos[j] < pos[k]
    {
      Seqs.PositionsIncrease(MatchesOf(message), products, j, k);
    }
    forall i | 0 <= i < |products|
      ensures i in pos <==> Matches(message, products[i])
    {
      Seqs.PositionsExact(MatchesOf(message), products, i);
    }
  }

  /** An empty message matches every product, since every name contains the empty string. */
  lemma EmptyMessageMatchesAll(products: seq<Product>)
    ensures FindProduct("", products) == products
  {
    assert Lower("") == "";
    forall i | 0 <= i < |products|
      ensures MatchesOf("")(products[i])
    {
      ContainsEmpty(Lower(products[i].name));
    }
    Seqs.FilterAll(MatchesOf(""), products);
  }

  /** Without keywords (no field, or an empty list) only the name rule can match. */
  lemma NameRuleAloneWithoutKeywords(message: string, p: Product)
    requires p.keywords.None? || p.keywords == Some([])
    ensures Matches(message, p) <==> NameMatch(message, p.name)
  {
  }

  /** A message that contains any single word of a scraped product's lower-cased name finds that product. */
  lemma ScrapedWordFindsProduct(message: string, products: seq<Product>, t: Tile, index: nat, word: string)
    requires ScrapedRecord(t, index) in products
    requires word in SplitOnSpaces(Lower(Trim(t.title)))
    requires Contains(Lower(message), word)
    ensures ScrapedRecord(t, index) in FindProduct(message, products)
  {
    var p := ScrapedRecord(t, index);
    var keywords := p.keywords.value;
    var i :| 0 <= i < |keywords| && keywords[i] == word;
    ScrapedRecordShape(t, index);
    LowerKeepsLowerText(word);
    assert Contains(Lower(message), Lower(keywords[i]));
    FindProductMembers(message, products, p);
  }

  /** A tile whose title has visible text gets only non-empty keywords, so no keyword matches every message. */
  lemma ScrapedKeywordsNonEmpty(t: Tile, index: nat)
    requires Trim(t.title) != ""
    ensures forall i :: 0 <= i < |ScrapedRecord(t, index).keywords.value| ==> ScrapedRecord(t, index).keywords.value[i] != ""
  {
    var name := Trim(t.title);
    var lower := Lower(name);
    assert ScrapedRecord(t, index).keywords.value == SplitOnSpaces(lower);
    LowerCharKeepsSpace(name[0]);
    LowerCharKeepsSpace(name[|name| - 1]);
    SplitTrimmedWordsNonEmpty(lower);
  }

  /** A tile whose title is blank gives a record that every message finds. */
  lemma BlankTitleMatchesEverything(message: string, t: Tile, index: nat)
    requires Trim(t.title) == ""
    ensures Matches(message, ScrapedRecord(t, index))
  {
    assert Lower("") == "";
    ContainsEmpty(Lower(message));
  }

  // ----- The reply context (server.js:160-170) -----

  function NotFoundContext(): string {
    "BAĞLAM: Aranan " + "ürün veritabanında " + "bulunamadı. " + "Müşteriden iletişim " + "bilgisi iste."
  }

  function FoundHeader(): string {
    "BAĞLAM: Ürün " + "bulundu. Cevap " + "verirken HTML " + "linki kullan. \n"
  }

  function BlockSeparator(): string { "\n---\n" }

  /** The HTML link to a product, written with its URL and name. */
  function Anchor(p: Product): string {
    "<a href=\"" + Js.ToText(p.url) + "\" target=\"_blank\">" + p.name + "</a>"
  }

  /** `p.currency || 'TL'`, as written into the context. */
  function CurrencyText(p: Product): string {
    if Js.Truthy(p.currency) then Js.ToText(p.currency) else "TL"
  }

  /** The first line of a block: the product's link. */
  function NameLine(p: Product): string {
    "ÜRÜN: " + Anchor(p)
  }

  /** The price line of a block, with the line break before it. */
  function PriceLine(p: Product): string {
    "\nFİYAT: " + Js.ToText(p.price) + " " + CurrencyText(p)
  }

  /** The stock and description lines of a block, with the line breaks before them. */
  function DetailLines(p: Product): string {
    "\nSTOK: " + Js.ToText(p.stockStatus) + "\nAÇIKLAMA: " + Js.ToText(p.description)
  }

  /** The context block of one match: name, price, stock and description lines. */
  function ProductBlock(p: Product): string {
    NameLine(p) + PriceLine(p) + DetailLines(p)
  }

  function ProductBlocks(found: seq<Product>): seq<string> {
    Seqs.Map(ProductBlock, found)
  }

  /** The context `/api/chat` hands to the model for the matches `found`. */
  function ReplyContext(found: seq<Product>): string {
    if |found| == 0 then NotFoundContext() else FoundHeader() + Join(ProductBlocks(found), BlockSeparator())
  }

  /** Where the block of `found[i]` begins in the context. */
  function BlockOffset(found: seq<Product>, i: nat): nat
    requires i < |found|
  {
    |FoundHeader()| + JoinOffset(ProductBlocks(found), BlockSeparator(), i)
  }

  /** The fixed "not found, ask for contact details" context is given exactly when nothing matched. */
  lemma ReplyContextNotFoundIff(found: seq<Product>)
    ensures ReplyContext(found) == NotFoundContext() <==> |found| == 0
  {
    if |found| > 0 {
      var ctx := ReplyContext(found);
      var k := |FoundHeader()| - 1;
      assert ctx[k] == FoundHeader()[k] == '\n';
      assert |NotFoundContext()| > k && NotFoundContext()[k] != '\n';
    }
  }

  /** Block `i` of the context is the block of the `i`-th match. */
  lemma ProductBlocksAt(found: seq<Product>, i: nat)
    requires i < |found|
    ensures ProductBlocks(found)[i] == ProductBlock(found[i])
  {
    Seqs.MapAt(ProductBlock, found, i);
  }

  /** With matches, the context starts with the header, and block `i` sits at `BlockOffset(found, i)`, the first right after the header. */
  lemma ReplyContextBlockAt(found: seq<Product>, i: nat)
    requires i < |found|
    ensures StartsWith(ReplyContext(found), FoundHeader()) && BlockOffset(found, 0) == |FoundHeader()|
    ensures OccursAt(ReplyContext(found), ProductBlocks(found)[i], BlockOffset(found, i))
  {
    var blocks := ProductBlocks(found);
    assert ReplyContext(found) == FoundHeader() + Join(blocks, BlockSeparator());
    JoinPlacesAfter(FoundHeader(), blocks, BlockSeparator(), i);
  }

  /**
   * Block `i` is followed by the separator and then block `i + 1`, in match order; the last block
   * ends the context.
   */
  lemma ReplyContextBlockFollows(found: seq<Product>, i: nat)
    requires i < |found|
    ensures i + 1 < |found| ==> BlockOffset(found, i + 1) == BlockOffset(found, i) + |ProductBlocks(found)[i]| + |BlockSeparator()|
    ensures i + 1 < |found| ==> OccursAt(ReplyContext(found), BlockSeparator(), BlockOffset(found, i) + |ProductBlocks(found)[i]|)
    ensures i + 1 == |found| ==> BlockOffset(found, i) + |ProductBlocks(found)[i]| == |ReplyContext(found)|
  {
    var blocks := ProductBlocks(found);
    var ctx := FoundHeader() + Join(blocks, BlockSeparator());
    assert ReplyContext(found) == ctx;
    JoinPlacesAfter(FoundHeader(), blocks, BlockSeparator(), i);
    if i + 1 < |found| {
      var e := BlockOffset(found, i) + |blocks[i]|;
      assert e == |FoundHeader()| + JoinOffset(blocks, BlockSeparator(), i) + |blocks[i]|;
      assert OccursAt(ctx, BlockSeparator(), e);
    }
  }

  /** Every block opens with the product's link and has its price line right after it. */
  lemma ProductBlockLayout(p: Product)
    ensures StartsWith(ProductBlock(p), "ÜRÜN: " + Anchor(p))
    ensures OccursAt(ProductBlock(p), PriceLine(p), |NameLine(p)|)
  {
    ThreeParts(NameLine(p), PriceLine(p), DetailLines(p));
  }

  /** `p.currency || 'TL'`: a falsy currency is quoted as `TL`, a truthy one as its own text. */
  lemma PriceLineQuotesCurrency(p: Product)
    ensures !Js.Truthy(p.currency) ==> PriceLine(p) == "\nFİYAT: " + Js.ToText(p.price) + " TL"
    ensures Js.Truthy(p.currency) ==> PriceLine(p) == "\nFİYAT: " + Js.ToText(p.price) + " " + Js.ToText(p.currency)
  {
  }

  /** A scraped product's block quotes its cleaned price in TL, since scraped records carry no currency. */
  lemma ScrapedBlockQuotesPriceInTL(t: Tile, index: nat)
    ensures PriceLine(ScrapedRecord(t, index)) == "\nFİYAT: " + CleanPrice(Trim(t.priceText)) + " TL"
    ensures Contains(ProductBlock(ScrapedRecord(t, index)), PriceLine(ScrapedRecord(t, index)))
  {
    var p := ScrapedRecord(t, index);
    PriceLineQuotesCurrency(p);
    ProductBlockLayout(p);
    ContainsAt(ProductBlock(p), PriceLine(p), |NameLine(p)|);
  }

  // ----- The /api/chat turn (server.js:149-182) -----

  /** The fixed system prompt, ahead of the context in the system message. */
  function SystemPrompt(): string {
    "\nSen Nanokar'ın " + "AI teknik asistanısın. " + "Görevin, müşterinin " + "projesine en " +
    "uygun Nanokar " + "ürünlerini (fiyatı " + "ve varyantları " + "ile) önermektir.\n" +
    "İletişim: Tel: " + "+90 216 526 " + "04 90, Mail: " + "sales@nanokar.com\n" +
    "\nKURALLAR:\n1. " + "Ürün verilerini " + "SADECE canlı " + "siteden çekilen " +
    "veritabanından " + "kullan.\n2. Ürün " + "ismini söylerken " + "MUTLAKA şu HTML " +
    "formatında link " + "ver. Örnek: " + "<a href=\"LİNK\" " + "target=\"_blank\">ÜRÜN " +
    "ADI</a>\n3. Eğer " + "ürün veritabanında " + "YOKSA veya müşteri " + "ÖZEL BİR ŞEY " +
    "isterse: \"Size " + "özel fiyat çalışması " + "yapabilmemiz " + "için lütfen " +
    "İsim, Soyisim " + "ve Telefon numaranızı " + "yazar mısınız?\" " + "de.\n4. Müşteri " +
    "bilgilerini " + "verirse: \"Bilgilerinizi " + "aldım [İsim], " + "en kısa sürede " +
    "dönüş yapacağız.\" " + "de.\n"
  }

  function LeadThanksPrefix(): string { "Bilgilerinizi aldım " }

  function LeadThanksSuffix(): string { ". Satış temsilcimiz " + "en kısa sürede " + "size dönüş yapacaktır." }

  /** The system message sent to the model for a turn whose matches are `found`. */
  function SystemMessage(found: seq<Product>): string {
    SystemPrompt() + "\n\n" + ReplyContext(found)
  }

  /** The thanks sent back for a saved lead whose name is `name`. */
  function LeadThanksMessage(name: Js.Value): string {
    LeadThanksPrefix() + Js.ToText(name) + LeadThanksSuffix()
  }

  /** The system message is the fixed prompt, a blank line, and then the context of the matches. */
  lemma SystemMessageLayout(found: seq<Product>)
    ensures StartsWith(SystemMessage(found), SystemPrompt())
    ensures OccursAt(SystemMessage(found), "\n\n", |SystemPrompt()|)
    ensures EndsWith(SystemMessage(found), ReplyContext(found))
  {
    ThreeParts(SystemPrompt(), "\n\n", ReplyContext(found));
    EndsWithConcat(SystemPrompt() + "\n\n", ReplyContext(found));
  }

  /** The thanks for a lead quote its name, as `String(name)`, between the fixed opening and closing. */
  lemma LeadThanksNamesTheLead(name: Js.Value)
    ensures StartsWith(LeadThanksMessage(name), LeadThanksPrefix())
    ensures OccursAt(LeadThanksMessage(name), Js.ToText(name), |LeadThanksPrefix()|)
    ensures EndsWith(LeadThanksMessage(name), LeadThanksSuffix())
  {
    ThreeParts(LeadThanksPrefix(), Js.ToText(name), LeadThanksSuffix());
    EndsWithConcat(LeadThanksPrefix() + Js.ToText(name), LeadThanksSuffix());
  }

  /** What one chat turn answers, up to the model call. */
  datatype ChatReply =
    | ServerError             // status 500 with { error: "Sunucu hatası" }
    | LeadThanks(message: string)                // { success: true, message }, without asking the model
    | AskModel(found: seq<Product>, system: string) // ask the model with `system` as the system message ahead of the turn's messages

  /** The lead hook as written: an empty async function, whose promise resolves to `undefined`. */
  function CheckAndSaveLeadAsWritten(text: Js.Value): Js.Value {
    Js.Undefined
  }

  /** The lead hook as the handler reads it: a result object; with no capture logic, one that saved nothing. */
  function CheckAndSaveLead(text: Js.Value): (r: Js.Value)
    ensures r.Object? && !Js.Truthy(Js.Get(r, "saved"))
  {
    Js.Object(map["saved" := Js.Bool(false)])
  }

  /** The content of the last message, or None when reading it throws (no messages, or a null last entry). */
  function LastContent(messages: seq<Js.Value>): Option<Js.Value> {
    if |messages| == 0 then None
    else
      var last := messages[|messages| - 1];
      if last.Undefined? || last.Null? then None else Some(Js.Get(last, "content"))
  }

  /** The turn once the message `msg` and the lead result `lead` are known. */
  function ChatTurn(msg: Js.Value, lead: Js.Value, products: seq<Product>): ChatReply {
    if lead.Undefined? || lead.Null? then ServerError // reading `lead.saved` throws
    else if Js.Truthy(Js.Get(lead, "saved")) then
      LeadThanks(LeadThanksMessage(Js.Get(lead, "name")))
    else if !msg.Str? then ServerError // `toLowerCase` is not a function of a non-string
    else
      var found := FindProduct(msg.s, products);
      AskModel(found, SystemMessage(found))
  }

  /** A saved lead answers with thanks by name and never reaches matching. */
  lemma SavedLeadShortCircuits(msg: Js.Value, lead: Js.Value, products: seq<Product>)
    requires Js.Truthy(Js.Get(lead, "saved"))
    ensures ChatTurn(msg, lead, products) == LeadThanks(LeadThanksMessage(Js.Get(lead, "name")))
  {
  }

  /** As written, the undefined lead result makes every turn fail with status 500. */
  lemma StubLeadFailsEveryTurn(msg: Js.Value, products: seq<Product>)
    ensures ChatTurn(msg, CheckAndSaveLeadAsWritten(msg), products) == ServerError
  {
  }

  /** With a lead result that saved nothing, a text message reaches matching and its context. */
  lemma UnsavedLeadReachesMatching(msg: string, products: seq<Product>)
    ensures ChatTurn(Js.Str(msg), CheckAndSaveLead(Js.Str(msg)), products)
         == AskModel(FindProduct(msg, products), SystemMessage(FindProduct(msg, products)))
  {
  }

  /** The server's state: `globalProducts`. */
  class Server {
    var products: seq<Product>

    constructor ()
      ensures products == []
    {
      products := [];
    }

    /**
     * `fetchProducts`. `scrape` is the list of tiles the live page yields, or None when the request
     * or the parse throws; `fallback` is the product list of ./products.json, or None when it cannot
     * be read or parsed. The scraped records replace the catalog only when there is at least one.
     */
    method FetchProducts(scrape: Option<seq<Tile>>, fallback: Option<seq<Product>>) returns (live: bool)
      modifies this
      ensures live <==> scrape.Some? && |scrape.value| > 0
      ensures products == FetchedCatalog(scrape, fallback)
    {
      if scrape.Some? {
        var scraped := ScrapeTiles(scrape.value);
        if |scraped| > 0 {
          products := scraped;
          return true;
        }
      }
      products := fallback.GetOr([]);
      return false;
    }

    /**
     * `POST /api/chat` up to the model call: fetch when the catalog is empty, check for a lead, match, build the context.
     * The lead check is the corrected hook `CheckAndSaveLead`; with the empty hook as written, `StubLeadFailsEveryTurn`
     * shows that every turn with a readable last message fails with status 500.
     */
    method HandleChat(messages: seq<Js.Value>, scrape: Option<seq<Tile>>, fallback: Option<seq<Product>>) returns (reply: ChatReply)
      modifies this
      ensures LastContent(messages).None? ==> reply == ServerError && products == old(products)
      ensures LastContent(messages).Some? ==>
        products == (if |old(products)| == 0 then FetchedCatalog(scrape, fallback) else old(products))
      ensures LastContent(messages).Some? ==>
        reply == ChatTurn(LastContent(messages).value, CheckAndSaveLead(LastContent(messages).value), products)
    {
      var content := LastContent(messages);
      if content.None? {
        return ServerError;
      }
      if |products| == 0 {
        var _ := FetchProducts(scrape, fallback);
      }
      var msg := content.value;
      reply := ChatTurn(msg, CheckAndSaveLead(msg), products);
    }
  }
}
