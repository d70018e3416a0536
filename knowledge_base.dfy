/**
 * `buildKnowledgeBase` of Node.js: the knowledge-base text put into the system prompts, made of a fixed
 * company header, one section per product of products.json in file order, and a fixed FAQ.
 */
module KnowledgeBase {
  import opened Text
  import Js
  import Seqs

  /** One entry of products.json, as the template reads it; a missing field reads as `undefined`. */
  datatype Entry = Entry(name: Js.Value, price: Js.Value, purity: Js.Value, usage: Js.Value, stock: Js.Value, description: Js.Value)

  /** The company header, up to and including the line that opens the product list. */
  function Header(): string {
    "\n# Nanokar E-Ticaret " + "Bilgi Tabanı\n\n" +
    "## Şirket Bilgileri\n" + "- İsim: Nanokar\n" + "- Web: nanokar.com.tr\n" +
    "- Alan: Nanoteknoloji " + "Çözümleri\n" +
    "- Ürün Kategorileri: " + "Metal Tozları, " + "Nano Tozlar, Grafen, " + "Seramik Tozlar\n\n" +
    "## Ürünler\n"
  }

  /** The FAQ after the product list, up to the end of the text. */
  function Footer(): string {
    "\n\n## SSS\n" +
    "1. Kargo ücretsiz mi? \n" + "   - 500 TL üzeri " + "siparişlerde kargo " + "ücretsizdir.\n\n" +
    "2. Teslimat süresi " + "nedir?\n" + "   - 2-3 iş günü " + "içinde kargoya " + "verilir.\n\n" +
    "3. Teknik destek " + "var mı?\n" + "   - Evet, ürün " + "kullanımı için " + "teknik destek " + "sağlıyoruz.\n"
  }

  /** `p.stock ? 'Mevcut' : 'Tükendi'`. */
  function StockLabel(stock: Js.Value): (r: string)
    ensures r == "Mevcut" <==> Js.Truthy(stock)
    ensures r == "Mevcut" || r == "Tükendi"
  {
    if Js.Truthy(stock) then "Mevcut" else "Tükendi"
  }

  /** The heading line of a section, with the line break before it. */
  function Heading(p: Entry): string {
    "\n### " + Js.ToText(p.name)
  }

  /** The price, purity and usage lines of a section. */
  function FactLines(p: Entry): string {
    "\n- Fiyat: " + Js.ToText(p.price) + " TL" +
    "\n- Saflık: " + Js.ToText(p.purity) +
    "\n- Kullanım Alanları: " + Js.ToText(p.usage)
  }

  /** The stock line of a section. */
  function StockLine(p: Entry): string {
    "\n- Stok: " + StockLabel(p.stock)
  }

  /** The description line of a section, with the line break that ends the section. */
  function DescriptionLine(p: Entry): string {
    "\n- Açıklama: " + Js.ToText(p.description) + "\n"
  }

  /** The section the `products.map` callback renders for one entry. */
  function Section(p: Entry): string {
    Heading(p) + FactLines(p) + StockLine(p) + DescriptionLine(p)
  }

  function Sections(products: seq<Entry>): seq<string> {
    Seqs.Map(Section, products)
  }

  /** `buildKnowledgeBase()` for the entries `products` of products.json. */
  function Build(products: seq<Entry>): string {
    Framed(Header(), Sections(products), "\n", Footer())
  }

  /** The header and the FAQ are the same whatever the products: the text always starts with the one and ends with the other. */
  lemma FrameIsConstant(products: seq<Entry>)
    ensures StartsWith(Build(products), Header())
    ensures EndsWith(Build(products), Footer())
  {
    FramedEnds(Header(), Sections(products), "\n", Footer());
  }

  /** Section `i` is the section of the `i`-th entry. */
  lemma SectionsAt(products: seq<Entry>, i: nat)
    requires i < |products|
    ensures Sections(products)[i] == Section(products[i])
  {
    Seqs.MapAt(Section, products, i);
  }

  /**
   * The sections appear in input order: section `i` starts `JoinOffset(Sections(products), "\n", i)` characters
   * after the header, is followed by one line break and section `i + 1`, and the last one is followed by the FAQ.
   */
  lemma SectionsInOrder(products: seq<Entry>, i: nat)
    requires i < |products|
    ensures OccursAt(Build(products), Sections(products)[i], |Header()| + JoinOffset(Sections(products), "\n", i))
    ensures i + 1 < |products| ==>
      JoinOffset(Sections(products), "\n", i + 1) == JoinOffset(Sections(products), "\n", i) + |Sections(products)[i]| + 1
    ensures i + 1 < |products| ==>
      OccursAt(Build(products), "\n", |Header()| + JoinOffset(Sections(products), "\n", i) + |Sections(products)[i]|)
    ensures i + 1 == |products| ==>
      OccursAt(Build(products), Footer(), |Header()| + JoinOffset(Sections(products), "\n", i) + |Sections(products)[i]|)
  {
    FramedPlaces(Header(), Sections(products), "\n", Footer(), i);
  }

  /** Every section opens with a "### " heading carrying the entry's name, and its stock line reads "Mevcut" exactly when the stock is truthy. */
  lemma SectionLayout(p: Entry)
    ensures StartsWith(Section(p), "\n### " + Js.ToText(p.name))
    ensures OccursAt(Section(p), StockLine(p), |Heading(p) + FactLines(p)|)
    ensures StockLine(p) == "\n- Stok: " + (if Js.Truthy(p.stock) then "Mevcut" else "Tükendi")
  {
    StartsWithFirstOfFour(Heading(p), FactLines(p), StockLine(p), DescriptionLine(p));
    ThreeParts(Heading(p) + FactLines(p), StockLine(p), DescriptionLine(p));
  }
}
