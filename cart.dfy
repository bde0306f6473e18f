/** The shopping cart of `Chatbot` (backend/chatbot_class.py): an ordered list
    of metadata records that `add_book`, `delete_book` and `delete_cart` change
    in place and `show_cart` and `total_cost` only read, and `prompt`, which
    applies the routed command to it. */
module Cart {
  import opened Strings
  import opened Decimal
  import opened Catalog
  import opened Router

  datatype Option<T> = None | Some(value: T)

  /** Fragment `fragment` (already lower-cased) occurs in the lower-cased title of `item`. */
  predicate Matches(fragment: string, item: Metadata)
  {
    IsSubstring(fragment, Lower(item.kitapAdi))
  }

  /** `s[i]` is the first element of `s` that matches `fragment`. */
  ghost predicate IsFirstMatch(fragment: string, s: seq<Metadata>, i: int)
  {
    0 <= i < |s| && Matches(fragment, s[i]) && forall j :: 0 <= j < i ==> !Matches(fragment, s[j])
  }

  /** Nothing in `s` matches `fragment`. */
  ghost predicate NoMatch(fragment: string, s: seq<Metadata>)
  {
    forall j :: 0 <= j < |s| ==> !Matches(fragment, s[j])
  }

  /** Between them, "there is a first match" and "there is no match" cover every case. */
  lemma {:induction false} FirstMatchOrNone(fragment: string, s: seq<Metadata>)
    ensures NoMatch(fragment, s) <==> !exists i :: IsFirstMatch(fragment, s, i)
  {
    if s != [] && !NoMatch(fragment, s) {
      if Matches(fragment, s[0]) {
        assert IsFirstMatch(fragment, s, 0);
      } else {
        FirstMatchOrNone(fragment, s[1..]);
        var i :| IsFirstMatch(fragment, s[1..], i);
        assert IsFirstMatch(fragment, s, i + 1);
      }
    }
  }

  // ---------------------------------------------------------------- add_book

  /** The list comprehension of `add_book`: the retrieved records whose title
      contains the fragment, in retrieval order. */
  function Found(fragment: string, retrieved: seq<Metadata>): (r: seq<Metadata>)
    ensures |r| <= |retrieved|
    ensures forall x :: x in r ==> x in retrieved && Matches(fragment, x)
    ensures forall x :: x in retrieved && Matches(fragment, x) ==> x in r
  {
    if retrieved == [] then []
    else (if Matches(fragment, retrieved[0]) then [retrieved[0]] else []) + Found(fragment, retrieved[1..])
  }

  /** The comprehension is empty exactly when nothing matches. */
  lemma {:induction false} FoundEmpty(fragment: string, retrieved: seq<Metadata>)
    ensures Found(fragment, retrieved) == [] <==> NoMatch(fragment, retrieved)
  {
    if retrieved != [] {
      FoundEmpty(fragment, retrieved[1..]);
      if !Matches(fragment, retrieved[0]) {
        assert NoMatch(fragment, retrieved[1..]) ==> NoMatch(fragment, retrieved);
      }
    }
  }

  /** The comprehension keeps the first match in front. */
  lemma {:induction false} FoundHead(fragment: string, retrieved: seq<Metadata>, i: int)
    requires IsFirstMatch(fragment, retrieved, i)
    ensures Found(fragment, retrieved) != [] && Found(fragment, retrieved)[0] == retrieved[i]
  {
    if !Matches(fragment, retrieved[0]) {
      assert IsFirstMatch(fragment, retrieved[1..], i - 1);
      FoundHead(fragment, retrieved[1..], i - 1);
    }
  }

  function AddedMessage(title: string): string { "✅ '" + title + "' sepete eklendi." }
  function NotFoundMessage(fragment: string): string { "❌ '" + fragment + "' adlı kitap bulunamadı." }

  /** The cart after `add_book` with lower-cased fragment `fragment`. */
  function CartAfterAdd(fragment: string, cart: seq<Metadata>, retrieved: seq<Metadata>): seq<Metadata>
  {
    var found := Found(fragment, retrieved);
    if found != [] then cart + [found[0]] else cart
  }

  /** The reply of `add_book`. */
  function AddReply(fragment: string, retrieved: seq<Metadata>): string
  {
    var found := Found(fragment, retrieved);
    if found != [] then AddedMessage(found[0].kitapAdi) else NotFoundMessage(fragment)
  }

  /** Add, found: the cart grows by the first matching record in retrieval
      order; the earlier items are untouched and the reply names the title. */
  lemma AddFound(fragment: string, cart: seq<Metadata>, retrieved: seq<Metadata>, i: int)
    requires IsFirstMatch(fragment, retrieved, i)
    ensures CartAfterAdd(fragment, cart, retrieved) == cart + [retrieved[i]]
    ensures AddReply(fragment, retrieved) == AddedMessage(retrieved[i].kitapAdi)
  {
    FoundHead(fragment, retrieved, i);
  }

  /** Add, not found: the cart is unchanged and the reply echoes the fragment. */
  lemma AddNotFound(fragment: string, cart: seq<Metadata>, retrieved: seq<Metadata>)
    requires NoMatch(fragment, retrieved)
    ensures CartAfterAdd(fragment, cart, retrieved) == cart
    ensures AddReply(fragment, retrieved) == NotFoundMessage(fragment)
  {
    FoundEmpty(fragment, retrieved);
  }

  /** No uniqueness check: adding a found book twice gives two entries. */
  lemma AddTwice(fragment: string, cart: seq<Metadata>, retrieved: seq<Metadata>, i: int)
    requires IsFirstMatch(fragment, retrieved, i)
    ensures CartAfterAdd(fragment, CartAfterAdd(fragment, cart, retrieved), retrieved)
      == cart + [retrieved[i], retrieved[i]]
  {
    AddFound(fragment, cart, retrieved, i);
    AddFound(fragment, cart + [retrieved[i]], retrieved, i);
  }

  // ------------------------------------------------------------- delete_book

  /** Python's `list.remove(x)`: drops the first element equal to `x`. */
  function RemoveValue(s: seq<Metadata>, x: Metadata): seq<Metadata>
    requires x in s
  {
    if s[0] == x then s[1..] else [s[0]] + RemoveValue(s[1..], x)
  }

  /** When `s[i]` is the first element equal to `x`, `remove(x)` drops index `i`. */
  lemma {:induction false} RemoveValueAt(s: seq<Metadata>, x: Metadata, i: int)
    requires 0 <= i < |s| && s[i] == x
    requires forall j :: 0 <= j < i ==> s[j] != x
    ensures RemoveValue(s, x) == s[..i] + s[i + 1..]
  {
    if i > 0 {
      RemoveValueAt(s[1..], x, i - 1);
      assert s[1..][..i - 1] == s[1..i];
      assert s[1..][i..] == s[i + 1..];
      assert [s[0]] + s[1..i] == s[..i];
    }
  }

  function RemovedMessage(title: string): string { "❌ '" + title + "' sepetten çıkarıldı." }
  function NotInCartMessage(fragment: string): string { "🔍 '" + fragment + "' adlı kitap sepette bulunamadı." }

  /** The cart after `delete_book` with lower-cased fragment `fragment`. */
  function CartAfterRemove(fragment: string, cart: seq<Metadata>): seq<Metadata>
  {
    if cart == [] then []
    else if Matches(fragment, cart[0]) then cart[1..]
    else [cart[0]] + CartAfterRemove(fragment, cart[1..])
  }

  /** The reply of `delete_book`. */
  function RemoveReply(fragment: string, cart: seq<Metadata>): string
  {
    if cart == [] then NotInCartMessage(fragment)
    else if Matches(fragment, cart[0]) then RemovedMessage(cart[0].kitapAdi)
    else RemoveReply(fragment, cart[1..])
  }

  /** Remove, found: exactly the first matching item goes, the others keep their
      order, and the reply names the removed title. */
  lemma {:induction false} RemoveFound(fragment: string, cart: seq<Metadata>, i: int)
    requires IsFirstMatch(fragment, cart, i)
    ensures CartAfterRemove(fragment, cart) == cart[..i] + cart[i + 1..]
    ensures |CartAfterRemove(fragment, cart)| == |cart| - 1
    ensures RemoveReply(fragment, cart) == RemovedMessage(cart[i].kitapAdi)
  {
    if i > 0 {
      assert IsFirstMatch(fragment, cart[1..], i - 1);
      RemoveFound(fragment, cart[1..], i - 1);
      assert cart[1..][..i - 1] == cart[1..i];
      assert cart[1..][i..] == cart[i + 1..];
      assert [cart[0]] + cart[1..i] == cart[..i];
    }
  }

  /** Remove, not found: the cart is unchanged and the reply echoes the fragment. */
  lemma {:induction false} RemoveNotFound(fragment: string, cart: seq<Metadata>)
    requires NoMatch(fragment, cart)
    ensures CartAfterRemove(fragment, cart) == cart
    ensures RemoveReply(fragment, cart) == NotInCartMessage(fragment)
  {
    if cart != [] {
      assert NoMatch(fragment, cart[1..]) by {
        forall j | 0 <= j < |cart| - 1 ensures !Matches(fragment, cart[1..][j]) {
          assert cart[1..][j] == cart[j + 1];
        }
      }
      RemoveNotFound(fragment, cart[1..]);
      assert [cart[0]] + cart[1..] == cart;
    }
  }

  // ---------------------------------------------- show_cart and total_cost

  const EmptyCartMessage: string := "🛒 Sepet boş."
  const ListingHeader: string := "📦 Sepetteki Kitaplar:"
  const ClearedMessage: string := "🧹 Sepet temizlendi."

  /** Line `position` of the listing: `{i}. {kitap_adi} - {fiyat} TL`. */
  function ItemLine(position: nat, item: Metadata): string
  {
    NatToString(position) + ". " + item.kitapAdi + " - " + IntToString(item.fiyat) + " TL"
  }

  /** The lines of the listing: the header, then one line per item numbered from 1. */
  function Listing(cart: seq<Metadata>): (lines: seq<string>)
    ensures |lines| == |cart| + 1 && lines[0] == ListingHeader
    ensures forall i :: 0 <= i < |cart| ==> lines[i + 1] == ItemLine(i + 1, cart[i])
  {
    [ListingHeader] + seq(|cart|, i requires 0 <= i < |cart| => ItemLine(i + 1, cart[i]))
  }

  /** Header first and line i + 1 for item i: that is the listing. */
  lemma {:induction false} ListingDetermined(lines: seq<string>, cart: seq<Metadata>)
    requires |lines| == |cart| + 1 && lines[0] == ListingHeader
    requires forall j :: 0 <= j < |cart| ==> lines[j + 1] == ItemLine(j + 1, cart[j])
    ensures lines == Listing(cart)
  {
    var listing := Listing(cart);
    var rest, listed := lines[1..], listing[1..];
    forall j | 0 <= j < |cart| ensures rest[j] == listed[j] {
      assert rest[j] == lines[j + 1] == ItemLine(j + 1, cart[j]);
      assert listed[j] == listing[j + 1];
    }
    assert rest == listed;
    assert lines == [lines[0]] + rest;
    assert listing == [listing[0]] + listed;
  }

  /** The reply of `show_cart`. */
  function ShowText(cart: seq<Metadata>): string
  {
    if cart == [] then EmptyCartMessage else Join(Listing(cart), '\n')
  }

  /** When no title holds a line break, the reply of `show_cart` on a non-empty
      cart falls apart into exactly the header line and one line per item, in
      cart order, numbered from 1. */
  lemma {:induction false} ShowLines(cart: seq<Metadata>)
    requires cart != []
    requires forall i :: 0 <= i < |cart| ==> '\n' !in cart[i].kitapAdi
    ensures Split(ShowText(cart), '\n') == Listing(cart)
    ensures |Split(ShowText(cart), '\n')| == |cart| + 1
  {
    var lines := Listing(cart);
    forall p | 0 <= p < |lines| ensures '\n' !in lines[p] {
      if p > 0 {
        ItemLineNoBreak(p, cart[p - 1]);
      }
    }
    SplitJoin(lines, '\n');
  }

  lemma ItemLineNoBreak(position: nat, item: Metadata)
    requires '\n' !in item.kitapAdi
    ensures '\n' !in ItemLine(position, item)
  {
    assert '\n' !in NatToString(position);
  }

  /** `sum(item["fiyat"] for item in self.cart)`. */
  function Sum(cart: seq<Metadata>): int
  {
    if cart == [] then 0 else cart[0].fiyat + Sum(cart[1..])
  }

  function TotalMessage(total: int): string { "💰 Toplam Tutar: " + IntToString(total) + " TL" }

  /** The total of two carts laid end to end is the sum of their totals. */
  lemma {:induction false} SumConcat(a: seq<Metadata>, b: seq<Metadata>)
    ensures Sum(a + b) == Sum(a) + Sum(b)
  {
    if a == [] {
      assert a + b == b;
    } else {
      SumConcat(a[1..], b);
      assert (a + b)[1..] == a[1..] + b;
    }
  }

  /** Adding an item raises the total by its price; removing the item at `i`
      lowers it by that item's price. */
  lemma SumAfterAppend(cart: seq<Metadata>, item: Metadata)
    ensures Sum(cart + [item]) == Sum(cart) + item.fiyat
  {
    SumConcat(cart, [item]);
  }

  lemma SumAfterRemoveAt(cart: seq<Metadata>, i: int)
    requires 0 <= i < |cart|
    ensures Sum(cart[..i] + cart[i + 1..]) == Sum(cart) - cart[i].fiyat
  {
    SumConcat(cart[..i], cart[i + 1..]);
    SumConcat(cart[..i], [cart[i]] + cart[i + 1..]);
    SumConcat([cart[i]], cart[i + 1..]);
    assert cart[..i] + ([cart[i]] + cart[i + 1..]) == cart;
  }

  // ------------------------------------------------------------------ prompt

  /** The cart after `prompt` routes an answer to `cmd`. */
  function Apply(cmd: Command, cart: seq<Metadata>, retrieved: seq<Metadata>): seq<Metadata>
  {
    match cmd
    case Add(book) => CartAfterAdd(Lower(book), cart, retrieved)
    case Remove(book) => CartAfterRemove(Lower(book), cart)
    case Clear => []
    case _ => cart
  }

  /** The value `prompt` returns for `cmd`; `None` for the fall-through. */
  function Reply(cmd: Command, cart: seq<Metadata>, retrieved: seq<Metadata>): Option<string>
  {
    match cmd
    case Passthrough(answer) => Some(answer)
    case Add(book) => Some(AddReply(Lower(book), retrieved))
    case Remove(book) => Some(RemoveReply(Lower(book), cart))
    case Show => Some(ShowText(cart))
    case Clear => Some(ClearedMessage)
    case Total => Some(TotalMessage(Sum(cart)))
    case NoResult => None
  }

  /** Every command but clear changes the length by at most one and keeps the
      other items in order: add appends, remove takes out the first match or
      nothing, the rest leave the cart alone; clear empties it. */
  lemma ApplyEffect(cmd: Command, cart: seq<Metadata>, retrieved: seq<Metadata>)
    ensures cmd.Clear? ==> Apply(cmd, cart, retrieved) == []
    ensures cmd.Add? ==>
      || (NoMatch(Lower(cmd.book), retrieved) && Apply(cmd, cart, retrieved) == cart)
      || exists i :: IsFirstMatch(Lower(cmd.book), retrieved, i) && Apply(cmd, cart, retrieved) == cart + [retrieved[i]]
    ensures cmd.Remove? ==>
      || (NoMatch(Lower(cmd.book), cart) && Apply(cmd, cart, retrieved) == cart)
      || exists i :: IsFirstMatch(Lower(cmd.book), cart, i) && Apply(cmd, cart, retrieved) == cart[..i] + cart[i + 1..]
    ensures !cmd.Add? && !cmd.Remove? && !cmd.Clear? ==> Apply(cmd, cart, retrieved) == cart
    ensures !cmd.Clear? ==> |cart| - 1 <= |Apply(cmd, cart, retrieved)| <= |cart| + 1
  {
    match cmd
    case Add(book) =>
      var fragment := Lower(book);
      FirstMatchOrNone(fragment, retrieved);
      if NoMatch(fragment, retrieved) {
        AddNotFound(fragment, cart, retrieved);
      } else {
        var i :| IsFirstMatch(fragment, retrieved, i);
        AddFound(fragment, cart, retrieved, i);
      }
    case Remove(book) =>
      var fragment := Lower(book);
      FirstMatchOrNone(fragment, cart);
      if NoMatch(fragment, cart) {
        RemoveNotFound(fragment, cart);
      } else {
        var i :| IsFirstMatch(fragment, cart, i);
        RemoveFound(fragment, cart, i);
      }
    case _ =>
  }

  /** An answer without any keyword is returned unchanged and leaves the cart
      alone; one that mentions a keyword but whose intent is none of the five
      exactly returns `None` and leaves the cart alone. */
  lemma PromptUnrouted(answer: string, cart: seq<Metadata>, retrieved: seq<Metadata>)
    ensures !MentionsIntent(answer) ==>
      Reply(Route(answer), cart, retrieved) == Some(answer) && Apply(Route(answer), cart, retrieved) == cart
    ensures MentionsIntent(answer) && ParseIntent(answer).0 !in Intents ==>
      Reply(Route(answer), cart, retrieved) == None && Apply(Route(answer), cart, retrieved) == cart
  {
    RoutePassthrough(answer);
    RouteNoResult(answer);
  }

  /** The bare keywords `kitap_ekle` and `kitap_cikar` carry an empty fragment,
      which occurs in every title: add takes the top-ranked record and remove
      takes out the first item of the cart. */
  lemma EmptyFragment(cart: seq<Metadata>, retrieved: seq<Metadata>)
    ensures retrieved != [] ==> CartAfterAdd("", cart, retrieved) == cart + [retrieved[0]]
    ensures cart != [] ==> CartAfterRemove("", cart) == cart[1..]
  {
    if retrieved != [] {
      assert OccursAt("", Lower(retrieved[0].kitapAdi), 0);
      AddFound("", cart, retrieved, 0);
    }
    if cart != [] {
      assert OccursAt("", Lower(cart[0].kitapAdi), 0);
    }
  }

  /** After a successful add, the last line of the listing shows the added
      title with its price, at position |cart| + 1. */
  lemma AddThenShow(fragment: string, cart: seq<Metadata>, retrieved: seq<Metadata>, i: int)
    requires IsFirstMatch(fragment, retrieved, i)
    ensures var after := CartAfterAdd(fragment, cart, retrieved);
      Listing(after)[|after|] == ItemLine(|cart| + 1, retrieved[i])
  {
    AddFound(fragment, cart, retrieved, i);
  }

  /** The chatbot's cart; everything else the source keeps on the object (the
      retriever, the language model, the prompt template) is outside the model. */
  class Chatbot {
    var cart: seq<Metadata>

    /** `self.cart = []` at the end of `__init__`. */
    constructor ()
      ensures cart == []
    {
      cart := [];
    }

    /** `add_book(book)`; `retrieved` is what the retriever returns for the
        lower-cased fragment, in rank order. */
    method AddBook(book: string, retrieved: seq<Metadata>) returns (reply: string)
      modifies this
      ensures cart == CartAfterAdd(Lower(book), old(cart), retrieved)
      ensures reply == AddReply(Lower(book), retrieved)
    {
      var fragment := Lower(book);
      var found := Found(fragment, retrieved);
      if found != [] {
        cart := cart + [found[0]];
        reply := AddedMessage(found[0].kitapAdi);
      } else {
        reply := NotFoundMessage(fragment);
      }
    }

    /** `delete_book(book)`: scans the cart in order and calls `remove` on the
        first item whose title contains the fragment. */
    method DeleteBook(book: string) returns (reply: string)
      modifies this
      ensures cart == CartAfterRemove(Lower(book), old(cart))
      ensures reply == RemoveReply(Lower(book), old(cart))
    {
      var fragment := Lower(book);
      var i := 0;
      while i < |cart|
        invariant 0 <= i <= |cart|
        invariant cart == old(cart)
        invariant forall j :: 0 <= j < i ==> !Matches(fragment, cart[j])
      {
        var item := cart[i];
        if IsSubstring(fragment, Lower(item.kitapAdi)) {
          assert IsFirstMatch(fragment, cart, i);
          RemoveValueAt(cart, item, i);
          RemoveFound(fragment, cart, i);
          cart := RemoveValue(cart, item);
          reply := RemovedMessage(item.kitapAdi);
          return;
        }
        i := i + 1;
      }
      RemoveNotFound(fragment, cart);
      reply := NotInCartMessage(fragment);
    }

    /** `show_cart()`: builds the list of lines in a loop and joins them with
        line breaks. It does not change the cart. */
    method ShowCart() returns (reply: string)
      ensures cart == [] ==> reply == EmptyCartMessage
      ensures cart != [] ==> reply == Join(Listing(cart), '\n')
    {
      if cart == [] {
        return EmptyCartMessage;
      }
      var items := cart;
      var lines := [ListingHeader];
      var k := 0;
      // `enumerate(self.cart, 1)`: item `items[k]` is listed at position k + 1
      while k < |items|
        invariant 0 <= k <= |items|
        invariant |lines| == k + 1 && lines[0] == ListingHeader
        invariant forall j :: 0 <= j < k ==> lines[j + 1] == ItemLine(j + 1, items[j])
      {
        lines := lines + [ItemLine(k + 1, items[k])];
        k := k + 1;
      }
      ListingDetermined(lines, items);
      reply := Join(lines, '\n');
    }

    /** `delete_cart()`: the cart is empty afterwards, whatever it held. */
    method DeleteCart() returns (reply: string)
      modifies this
      ensures cart == []
      ensures reply == ClearedMessage
    {
      cart := [];
      reply := ClearedMessage;
    }

    /** `total_cost()`: reports the sum of the prices. It does not change the cart. */
    method TotalCost() returns (reply: string)
      ensures reply == TotalMessage(Sum(cart))
    {
      var total := Sum(cart);
      reply := TotalMessage(total);
    }

    /** The intent-routing part of `prompt`: `answer` is the language model's
        answer and `retrieved` what the retriever would return for an add. */
    method Prompt(answer: string, retrieved: seq<Metadata>) returns (reply: Option<string>)
      modifies this
      ensures cart == Apply(Route(answer), old(cart), retrieved)
      ensures reply == Reply(Route(answer), old(cart), retrieved)
    {
      match Route(answer)
      case Passthrough(a) =>
        reply := Some(a);
      case Add(book) =>
        var r := AddBook(book, retrieved);
        reply := Some(r);
      case Remove(book) =>
        var r := DeleteBook(book);
        reply := Some(r);
      case Show =>
        var r := ShowCart();
        reply := Some(r);
      case Clear =>
        var r := DeleteCart();
        reply := Some(r);
      case Total =>
        var r := TotalCost();
        reply := Some(r);
      case NoResult =>
        reply := None;
    }
  }

  /** A worked session: a catalog record "Dune" priced 150, an answer
      `kitap_ekle-dune` that puts its metadata in an empty cart, and the listing
      that shows it as the first line after the header. */
  lemma DuneScenario(book: Book, answer: string)
    requires book.title == "Dune" && book.price == 150
    requires answer == "kitap_ekle-dune"
    ensures Route(answer) == Add("dune")
    ensures Apply(Route(answer), [], [MetadataOf(book)]) == [MetadataOf(book)]
    ensures ShowText([MetadataOf(book)]) == ListingHeader + "\n1. dune - 150 TL"
  {
    assert answer == Intents[0] + [Separator] + "dune";
    ParseKeywordWithArgument(0, "dune");
    DuneMatches(book);
    var m := MetadataOf(book);
    AddFound("dune", [], [m], 0);
    DuneListing(m);
  }

  lemma DuneListing(m: Metadata)
    requires m.kitapAdi == "dune" && m.fiyat == 150
    ensures ShowText([m]) == ListingHeader + "\n1. dune - 150 TL"
  {
    ShowSingle(m);
    DuneLine(m);
  }

  lemma DuneMatches(book: Book)
    requires book.title == "Dune"
    ensures MetadataOf(book).kitapAdi == "dune"
    ensures IsFirstMatch("dune", [MetadataOf(book)], 0)
  {
    var m := MetadataOf(book);
    assert m.kitapAdi == "dune";
    LowerOfLower("dune");
    assert OccursAt("dune", Lower(m.kitapAdi), 0);
  }

  /** A one-item cart is listed as the header and the item's line. */
  lemma ShowSingle(m: Metadata)
    ensures ShowText([m]) == ListingHeader + "\n" + ItemLine(1, m)
  {
    var lines := Listing([m]);
    assert lines == [ListingHeader, ItemLine(1, m)];
    assert lines[1..] == [ItemLine(1, m)];
    assert Join(lines[1..], '\n') == ItemLine(1, m);
    assert Join(lines, '\n') == ListingHeader + ['\n'] + ItemLine(1, m);
    assert ShowText([m]) == Join(lines, '\n');
  }

  lemma DuneLine(m: Metadata)
    requires m.kitapAdi == "dune" && m.fiyat == 150
    ensures "\n" + ItemLine(1, m) == "\n1. dune - 150 TL"
  {
    assert NatToString(1) == "1";
    assert NatToString(150) == NatToString(15) + "0";
    assert NatToString(15) == "15";
  }
}
