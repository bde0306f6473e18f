/** The intent router of `Chatbot.prompt` (backend/chatbot_class.py): it takes
    the language model's answer and decides whether it is a cart command, and
    which one, or an ordinary answer to pass through. */
module Router {
  import opened Strings

  const AddIntent: string := "kitap_ekle"
  const ShowIntent: string := "sepet_goster"
  const ClearIntent: string := "sepet_temizle"
  const TotalIntent: string := "sepet_toplam"
  const RemoveIntent: string := "kitap_cikar"

  /** The five keywords, in the order the source lists them. */
  const Intents: seq<string> := [AddIntent, ShowIntent, ClearIntent, TotalIntent, RemoveIntent]

  /** The character that separates the intent from its argument. */
  const Separator: char := '-'

  /** What the router decides to do with an answer. `NoResult` is the fall-through
      of the source, which returns `None`. */
  datatype Command =
    | Passthrough(answer: string)
    | Add(book: string)
    | Remove(book: string)
    | Show
    | Clear
    | Total
    | NoResult

  /** Some keyword occurs in the lower-cased answer (`any(k in answer.lower() ...)`). */
  predicate MentionsIntent(answer: string)
  {
    exists k | 0 <= k < |Intents| :: IsSubstring(Intents[k], Lower(answer))
  }

  /** `answer.split("-")`: two parts give (intent, argument); any other number of
      parts gives the whole answer as intent and an empty argument. */
  function ParseIntent(answer: string): (string, string)
  {
    var parts := Split(answer, Separator);
    if |parts| == 2 then (parts[0], parts[1]) else (answer, "")
  }

  /** The `if`/`elif` chain: exact, case-sensitive comparison of the intent. */
  function Dispatch(intent: string, book: string): Command
  {
    if intent == AddIntent then Add(book)
    else if intent == RemoveIntent then Remove(book)
    else if intent == ShowIntent then Show
    else if intent == ClearIntent then Clear
    else if intent == TotalIntent then Total
    else NoResult
  }

  /** The routing decision for one answer. */
  function Route(answer: string): Command
  {
    if MentionsIntent(answer) then
      var (intent, book) := ParseIntent(answer);
      Dispatch(intent, book)
    else Passthrough(answer)
  }

  /** The shape of the parse: with exactly one separator, intent and argument are
      the text before and after it; otherwise the answer is the intent. */
  lemma ParseIntentShape(answer: string)
    ensures Count(answer, Separator) == 1 ==>
      && ParseIntent(answer).0 + [Separator] + ParseIntent(answer).1 == answer
      && Separator !in ParseIntent(answer).0
      && Separator !in ParseIntent(answer).1
    ensures Count(answer, Separator) != 1 ==> ParseIntent(answer) == (answer, "")
  {
    SplitTwo(answer, Separator);
  }

  /** `intent-argument` parses back into its two halves when neither holds the separator. */
  lemma ParseCommandText(intent: string, book: string)
    requires Separator !in intent && Separator !in book
    ensures ParseIntent(intent + [Separator] + book) == (intent, book)
  {
    SplitJoin([intent, book], Separator);
    assert Join([intent, book], Separator) == intent + [Separator] + book by {
      assert [intent, book][1..] == [book];
    }
  }

  /** Every keyword is lower-case and free of the separator. */
  lemma KeywordFacts(k: nat)
    requires k < |Intents|
    ensures IsLower(Intents[k]) && Separator !in Intents[k]
  {
  }

  /** A text that starts with keyword `k` mentions an intent. */
  lemma MentionsKeywordPrefix(k: nat, rest: string)
    requires k < |Intents|
    ensures MentionsIntent(Intents[k] + rest)
  {
    var kw := Intents[k];
    SubstringOfPrefix(kw, rest);
    SubstringLower(kw, kw + rest);
    KeywordFacts(k);
    LowerOfLower(kw);
    assert IsSubstring(Intents[k], Lower(Intents[k] + rest));
  }

  /** The answer parses to intent `Intents[k]` exactly when it is the bare keyword
      or the keyword, a separator and an argument free of separators; the
      argument is then empty or that rest. Such an answer always passes the
      keyword test. */
  lemma ParseIntentIs(answer: string, k: nat)
    requires k < |Intents|
    ensures ParseIntent(answer).0 == Intents[k] <==>
      || answer == Intents[k]
      || (exists b :: Separator !in b && answer == Intents[k] + [Separator] + b)
    ensures answer == Intents[k] ==> ParseIntent(answer) == (Intents[k], "") && MentionsIntent(answer)
    ensures forall b :: Separator !in b && answer == Intents[k] + [Separator] + b ==>
      ParseIntent(answer) == (Intents[k], b) && MentionsIntent(answer)
  {
    var kw := Intents[k];
    if answer == kw {
      ParseBareKeyword(k);
    }
    forall b | Separator !in b && answer == kw + [Separator] + b
      ensures ParseIntent(answer) == (kw, b) && MentionsIntent(answer)
    {
      ParseKeywordWithArgument(k, b);
    }
    if ParseIntent(answer).0 == kw && answer != kw {
      ParseIntentShape(answer);
      var b := ParseIntent(answer).1;
      assert Separator !in b && answer == kw + [Separator] + b;
    }
  }

  /** The bare keyword parses to itself with an empty argument. */
  lemma ParseBareKeyword(k: nat)
    requires k < |Intents|
    ensures ParseIntent(Intents[k]) == (Intents[k], "") && MentionsIntent(Intents[k])
  {
    var kw := Intents[k];
    KeywordFacts(k);
    SplitNoSeparator(kw, Separator);
    MentionsKeywordPrefix(k, "");
    assert kw + "" == kw;
  }

  /** A keyword, a separator and an argument free of separators parse to the
      keyword and the argument. */
  lemma ParseKeywordWithArgument(k: nat, b: string)
    requires k < |Intents| && Separator !in b
    ensures ParseIntent(Intents[k] + [Separator] + b) == (Intents[k], b)
    ensures MentionsIntent(Intents[k] + [Separator] + b)
  {
    var kw := Intents[k];
    KeywordFacts(k);
    ParseCommandText(kw, b);
    MentionsKeywordPrefix(k, [Separator] + b);
    assert kw + [Separator] + b == kw + ([Separator] + b);
  }

  /** No keyword, no command: the answer is passed through unchanged; a keyword
      anywhere in the answer, in any letter case, always diverts it from
      pass-through, even in ordinary prose. */
  lemma RoutePassthrough(answer: string)
    ensures Route(answer).Passthrough? <==> !MentionsIntent(answer)
    ensures Route(answer).Passthrough? ==> Route(answer).answer == answer
  {
  }

  /** The answers routed to adding book fragment `b`: exactly `kitap_ekle-b`
      with `b` free of separators, and the bare `kitap_ekle` with `b` empty. */
  lemma RouteAdd(answer: string, b: string)
    ensures Route(answer) == Add(b) <==>
      || (answer == AddIntent && b == "")
      || (answer == AddIntent + [Separator] + b && Separator !in b)
  {
    ParseIntentIs(answer, 0);
    if answer == AddIntent + [Separator] + b && Separator !in b {
      assert Route(answer) == Add(b);
    }
  }

  /** The answers routed to removing book fragment `b`, likewise with `kitap_cikar`. */
  lemma RouteRemove(answer: string, b: string)
    ensures Route(answer) == Remove(b) <==>
      || (answer == RemoveIntent && b == "")
      || (answer == RemoveIntent + [Separator] + b && Separator !in b)
  {
    ParseIntentIs(answer, 4);
    if answer == RemoveIntent + [Separator] + b && Separator !in b {
      assert Route(answer) == Remove(b);
    }
  }

  /** An answer is routed to the argument-free command with keyword `Intents[k]`
      exactly when it is the keyword alone or the keyword, a separator and a
      (discarded) rest without separators. */
  ghost predicate IsCommandText(answer: string, k: nat)
    requires k < |Intents|
  {
    || answer == Intents[k]
    || (exists b :: Separator !in b && answer == Intents[k] + [Separator] + b)
  }

  lemma RouteShow(answer: string)
    ensures Route(answer) == Show <==> IsCommandText(answer, 1)
  {
    ParseIntentIs(answer, 1);
  }

  lemma RouteClear(answer: string)
    ensures Route(answer) == Clear <==> IsCommandText(answer, 2)
  {
    ParseIntentIs(answer, 2);
  }

  lemma RouteTotal(answer: string)
    ensures Route(answer) == Total <==> IsCommandText(answer, 3)
  {
    ParseIntentIs(answer, 3);
  }

  /** An answer that passes the keyword test but whose intent part is none of
      the five keywords exactly is dropped. */
  lemma RouteNoResult(answer: string)
    ensures Route(answer) == NoResult <==> MentionsIntent(answer) && ParseIntent(answer).0 !in Intents
  {
  }

  /** `kitap_ekle-Dune` adds the fragment `Dune`. */
  lemma RouteExampleAdd(answer: string)
    requires answer == "kitap_ekle-Dune"
    ensures Route(answer) == Add("Dune")
  {
    RouteAdd(answer, "Dune");
  }

  /** The bare `sepet_toplam` asks for the total. */
  lemma RouteExampleTotal(answer: string)
    requires answer == "sepet_toplam"
    ensures Route(answer) == Total
  {
    RouteTotal(answer);
  }

  /** A capital letter in the intent passes the lower-cased keyword test but
      matches no intent exactly. */
  lemma RouteExampleCapital(answer: string)
    requires answer == "Kitap_ekle-x"
    ensures Route(answer) == NoResult
  {
    CapitalMentions(answer);
    ParseCommandText("Kitap_ekle", "x");
    assert answer == "Kitap_ekle" + [Separator] + "x";
  }

  lemma CapitalMentions(answer: string)
    requires answer == "Kitap_ekle-x"
    ensures MentionsIntent(answer)
  {
    var lowered := Lower(answer);
    assert lowered[..|AddIntent|] == AddIntent;
    MentionsAt(answer, 0, 0);
  }

  /** A keyword occurring at index `i` of the lower-cased answer is a mention. */
  lemma MentionsAt(answer: string, k: nat, i: nat)
    requires k < |Intents|
    requires i + |Intents[k]| <= |answer| && Lower(answer)[i..i + |Intents[k]|] == Intents[k]
    ensures MentionsIntent(answer)
  {
    assert OccursAt(Intents[k], Lower(answer), i);
  }

  /** Spaces around the separator leave `kitap_ekle ` (with a trailing space)
      as the intent, which matches nothing. */
  lemma RouteExampleSpaced(answer: string)
    requires answer == "kitap_ekle - x"
    ensures Route(answer) == NoResult
  {
    ParseCommandText("kitap_ekle ", " x");
    assert answer == "kitap_ekle " + [Separator] + " x";
    assert answer == AddIntent + " - x";
    MentionsKeywordPrefix(0, " - x");
  }

  /** The misfire hazard of keyword-substring detection: prose that merely
      mentions a keyword, in any letter case, without a single separator, is
      not passed through but dropped (`None`). */
  lemma RouteProseMention(answer: string)
    requires MentionsIntent(answer)
    requires Count(answer, Separator) != 1
    requires answer !in Intents
    ensures Route(answer) == NoResult
  {
    ParseIntentShape(answer);
  }
}
