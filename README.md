# Bookstore chatbot: cart and intent router

A Dafny model of the custom logic of a retrieval-augmented bookstore chatbot
(`backend/chatbot_class.py`). The language model, the retriever, the vector
store and the web facade are external collaborators. What remains, and what is
modelled and proved here, has three parts:

- **Catalog metadata** (`catalog.dfy`, module `Catalog`). `data_preprocessing`
  turns each catalog record into a descriptive text and a metadata record. The
  metadata holds `kitap_adi` (title), `yazar` (author) and `tur` (genre)
  lower-cased, and `id`, `fiyat` (price) and `stok` (stock) unchanged.
- **Intent router** (`router.dfy`, module `Router`). This is the part of
  `Chatbot.prompt` that runs after the model has answered. If none of the
  keywords `kitap_ekle`, `sepet_goster`, `sepet_temizle`, `sepet_toplam` and
  `kitap_cikar` occurs in the lower-cased answer, the answer is passed through.
  Otherwise the answer is split on `-`. Exactly two parts give (intent,
  argument); any other count makes the whole answer the intent, with an empty
  argument. The intent is then compared exactly, case-sensitively, with the
  five keywords. If none matches, the router falls through and `prompt`
  returns `None`.
- **Cart** (`cart.dfy`, module `Cart`, class `Chatbot`). The cart is one
  ordered sequence of metadata records held in the field `cart`:
  - `AddBook` appends the first retrieved record whose title contains the
    lower-cased fragment.
  - `DeleteBook` removes the first cart item whose title contains it.
  - `ShowCart` lists the items, numbered from 1.
  - `DeleteCart` empties the cart.
  - `TotalCost` reports the sum of the prices.
  - `Prompt` applies the routed command to the cart.

  Each mutating method's new state is tied to a specification function of the
  old state (`CartAfterAdd`, `CartAfterRemove`, `Apply`). The promised
  properties are proved as lemmas about those functions: what the cart gains
  or loses, the order kept, the replies, and the totals. `ShowCart` and
  `TotalCost` have no `modifies` clause, so they cannot change the cart.

Two text helpers support these parts. `strings.dfy` (module `Strings`) models
Python's `lower`, `in`, `split` and `join`. `decimal.dfy` (module `Decimal`)
models how an f-string prints an integer.

Three details of the code shape the model:

- A listing line is `"{i}. {kitap_adi} - {fiyat} TL"` with a hyphen.
- An unrecognised intent yields `None`. It does not fall back to the raw answer.
- Removal calls `list.remove(item)`, which removes the first element *equal*
  to `item`. `RemoveValueAt` shows that this is the scanned position itself,
  because no earlier item matched.

The two calls into code the model cannot see become parameters:

- The language model's answer is the `answer` argument of `Prompt`.
- The retriever's result for the lower-cased add fragment is the `retrieved`
  argument of `AddBook` and `Prompt`. It is a sequence of metadata records in
  rank order, of any length and possibly with repeats.

## Model

| member | source | states |
|---|---|---|
| `Catalog.Preprocess` | backend/chatbot_class.py:21-39 | one document per catalog record, in catalog order; its metadata holds the lower-cased title, author and genre and the unchanged id, price and stock; its text is the record's description |
| `Catalog.MetadataTitleSearchable` | backend/chatbot_class.py:29-36 | the stored title is lower-case, so lower-casing it again changes nothing, and a fragment occurs in it exactly when it occurs in the lower-cased catalog title |
| `Strings.Lower` | backend/chatbot_class.py:115 | `lower()` keeps the length and maps each character through ASCII lower-casing |
| `Strings.IsSubstring` | backend/chatbot_class.py:118 | Python's `in` on strings: true exactly when the needle occurs at some index of the text; the empty string occurs everywhere |
| `Strings.SubstringLower` | backend/chatbot_class.py:174 | an occurrence survives lower-casing both strings, so a keyword in the answer is found in the lower-cased answer |
| `Strings.Split` | backend/chatbot_class.py:175 | `split("-")` gives one more part than there are separators, and no part contains the separator |
| `Strings.JoinSplit` | backend/chatbot_class.py:175 | joining the parts of a split with the separator gives back the original string |
| `Strings.SplitJoin` | backend/chatbot_class.py:147 | splitting a `"\n".join` of parts free of line breaks gives back exactly those parts |
| `Strings.SplitTwo` | backend/chatbot_class.py:175-179 | a split gives exactly two parts if and only if the separator occurs once, and then the parts are the text before and after it |
| `Decimal.ParseNatToString` | backend/chatbot_class.py:146 | the decimal digits printed for a position number read back as that number |
| `Decimal.IntToStringRoundTrip` | backend/chatbot_class.py:158 | the text printed for a price or total reads back as the same integer, so distinct totals print distinctly |
| `Router.ParseIntentShape` | backend/chatbot_class.py:175-181 | with exactly one `-`, the intent and the argument are the text before and after it and contain no `-`; otherwise the intent is the whole answer and the argument is empty |
| `Router.ParseIntentIs` | backend/chatbot_class.py:174-181 | the parsed intent equals keyword k exactly when the answer is the bare keyword or the keyword, `-`, and an argument without `-`; such an answer always passes the keyword test |
| `Router.RoutePassthrough` | backend/chatbot_class.py:173-196 | the answer is passed through, unchanged, exactly when no keyword occurs in its lower-cased form |
| `Router.RouteAdd` | backend/chatbot_class.py:174-185 | an answer is routed to adding fragment b if and only if it is `kitap_ekle-b` with b free of `-`, or the bare `kitap_ekle` with b empty |
| `Router.RouteRemove` | backend/chatbot_class.py:186-187 | an answer is routed to removing fragment b if and only if it is `kitap_cikar-b` with b free of `-`, or the bare `kitap_cikar` with b empty |
| `Router.RouteShow` | backend/chatbot_class.py:188-189 | an answer is routed to show if and only if it is `sepet_goster`, alone or followed by `-` and a rest without `-` |
| `Router.RouteClear` | backend/chatbot_class.py:190-191 | an answer is routed to clear if and only if it is `sepet_temizle`, alone or followed by `-` and a rest without `-` |
| `Router.RouteTotal` | backend/chatbot_class.py:192-193 | an answer is routed to total if and only if it is `sepet_toplam`, alone or followed by `-` and a rest without `-` |
| `Router.RouteNoResult` | backend/chatbot_class.py:184-193 | the router falls through exactly when the answer mentions a keyword but its intent part equals none of the five exactly |
| `Router.RouteProseMention` | backend/chatbot_class.py:173-193 | prose that mentions a keyword in any letter case (the `answer.lower()` test) does not contain exactly one `-` and is not itself one of the five keywords is not passed through; it falls through to `None` |
| `Router.RouteExampleAdd` | backend/chatbot_class.py:175-185 | `kitap_ekle-Dune` routes to adding `Dune` |
| `Router.RouteExampleTotal` | backend/chatbot_class.py:178-193 | the bare `sepet_toplam` routes to total |
| `Router.RouteExampleCapital` | backend/chatbot_class.py:174-193 | `Kitap_ekle-x` passes the lower-cased keyword test but matches no intent, so the router falls through |
| `Router.RouteExampleSpaced` | backend/chatbot_class.py:175-193 | with `kitap_ekle - x` the intent is `kitap_ekle ` with a trailing space, which matches no intent, so the router falls through |
| `Cart.Found` | backend/chatbot_class.py:116-119 | a record is kept exactly when it is a retrieved record whose title contains the fragment, and there are no more of them than retrieved records |
| `Cart.FoundEmpty` | backend/chatbot_class.py:116-120 | the filter result is empty exactly when no retrieved title contains the fragment |
| `Cart.FoundHead` | backend/chatbot_class.py:116-121 | the head of the filter result is the first matching record in retrieval order |
| `Cart.AddFound` | backend/chatbot_class.py:115-122 | if some retrieved title contains the fragment, the cart becomes the old cart plus the first such record, and the reply names that title |
| `Cart.AddNotFound` | backend/chatbot_class.py:115-124 | if no retrieved title contains the fragment, the cart is unchanged and the reply names the lower-cased fragment as not found |
| `Cart.AddTwice` | backend/chatbot_class.py:120-121 | there is no uniqueness check: adding the same found book twice gives two entries |
| `Cart.EmptyFragment` | backend/chatbot_class.py:114-133 | an empty fragment (the bare keyword) matches every title: add takes the top-ranked record, remove takes out the first cart item |
| `Cart.RemoveValueAt` | backend/chatbot_class.py:132 | `list.remove(x)` drops position i when `s[i]` is the first element equal to x |
| `Cart.RemoveFound` | backend/chatbot_class.py:127-133 | the first cart item, in order, whose title contains the fragment is removed; the cart is one shorter, the other items keep their order, and the reply names the removed title |
| `Cart.RemoveNotFound` | backend/chatbot_class.py:127-137 | if no cart title contains the fragment, the cart is unchanged and the reply says it is not in the cart |
| `Cart.Listing` | backend/chatbot_class.py:144-146 | the listing has the header and then, at line p, the line `p. title - price TL` for item p, for p from 1 to the cart's length |
| `Cart.ShowLines` | backend/chatbot_class.py:140-147 | when no title holds a line break, the `show_cart` reply splits into exactly the header and one line per item, numbered from 1, in cart order |
| `Cart.SumConcat` | backend/chatbot_class.py:157 | the total of two carts laid end to end is the sum of their totals |
| `Cart.SumAfterAppend` | backend/chatbot_class.py:157 | appending an item to any cart, the empty one included, raises the total by its price |
| `Cart.SumAfterRemoveAt` | backend/chatbot_class.py:157 | removing the item at a valid index i lowers the total by that item's price |
| `Cart.AddThenShow` | backend/chatbot_class.py:120-146 | after a successful add, the last listing line shows the added title and its price at position length+1 |
| `Cart.ApplyEffect` | backend/chatbot_class.py:173-193 | clear empties the cart; add appends the first match or, when no retrieved title matches, leaves the cart unchanged; remove takes out the first match or, with no match, leaves the cart unchanged; every other command leaves it unchanged; except for clear, the length changes by at most one |
| `Cart.PromptUnrouted` | backend/chatbot_class.py:173-196 | an answer without a keyword is returned unchanged and leaves the cart alone; a keyword answer whose intent matches none returns `None` and leaves the cart alone |
| `Cart.DuneScenario` | backend/chatbot_class.py:114-147 | a catalog record `Dune` priced 150 and the answer `kitap_ekle-dune`, when the retriever returns exactly that record, put its metadata in an empty cart, which is then listed as `1. dune - 150 TL` under the header |
| `Cart.Chatbot.constructor` | backend/chatbot_class.py:93 | the cart starts empty |
| `Cart.Chatbot.AddBook` | backend/chatbot_class.py:114-124 | the new cart is the add specification applied to the old cart, and the reply is the add reply |
| `Cart.Chatbot.DeleteBook` | backend/chatbot_class.py:127-137 | the scan finds the first matching item and removes it with `remove`; the new cart and the reply are the remove specification applied to the old cart |
| `Cart.Chatbot.ShowCart` | backend/chatbot_class.py:140-147 | an empty cart gives `🛒 Sepet boş.`; otherwise the reply is the listing lines joined by line breaks; the cart is not changed |
| `Cart.Chatbot.DeleteCart` | backend/chatbot_class.py:150-153 | the cart is empty afterwards, whatever it held, and the reply confirms it |
| `Cart.Chatbot.TotalCost` | backend/chatbot_class.py:156-158 | the reply shows the sum of the prices, which is 0 for an empty cart; the cart is not changed |
| `Cart.Chatbot.Prompt` | backend/chatbot_class.py:173-196 | the routed command is applied: the new cart and the returned value match the command's specification, with `None` for the fall-through |

## Left out

- The chain construction and invocation in `prompt` (backend/chatbot_class.py:165-170) are left out because they call the language model. Its answer is the `answer` parameter.
- `retriever.invoke` (backend/chatbot_class.py:117) is left out because it is a similarity search in an external vector store. Its ranked result is the `retrieved` parameter. The model does not bound it to 10 records and does not model the ranking.
- The embeddings, the Gemini model settings, the system prompt and prompt template, and `load_dotenv` (backend/chatbot_class.py:52-90) are left out because they are configuration of external services.
- `upload_vectorstore` (backend/chatbot_class.py:96-110) is left out because it is filesystem checks and calls into the Chroma vector store.
- The JSON file read (backend/chatbot_class.py:16-17) is I/O, and the text splitter (backend/chatbot_class.py:42-43) is library code. `Preprocess` returns the documents as they are before splitting.
- Strings.Lower covers ASCII letters only. Python's `lower` also folds non-ASCII letters, such as the Turkish capitals, and for some of them changes the length.
- Prices are integers. Float prices, and the way Python prints them (`120.0`, `205.5`), are not modelled.
- Cart.Matches reads the metadata title directly. The `.get("kitap_adi", "")` default (backend/chatbot_class.py:118) is not modelled, because every record built by `data_preprocessing` has a title.
- The cart holds metadata values. Python appends the retrieved document's dictionary object itself, so the aliasing between cart entries and retrieved documents is not modelled.
- The unreachable statements are not modelled: `silindi = True` and `break` after the `return` (backend/chatbot_class.py:134-135), and the `return True` lines (backend/chatbot_class.py:153, 159).
- `backend/api.py` (the HTTP facade and its JSON encoding) and `webpage/script.js` (the browser page) are not part of this model.
- Concurrent requests sharing one cart are not modelled. Each call is modelled as running to completion on its own.
