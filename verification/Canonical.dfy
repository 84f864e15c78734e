/**
 Canonical word aggregation (internal/analytics/canonical.go): tokens are counted in maps and read back in whatever
 order the maps give, and still the output is one function of the documents.
 */
module Canonical {
  import opened Ordering

  /** Splitting a text into sentences and tokens is taken as done; `source` is the document's trimmed identifier. */
  datatype Document = Document(source: string, sentences: seq<seq<string>>)

  datatype Form = Form(value: string, frequency: nat)

  datatype Word = Word(canonical: string, language: string, frequency: nat, messageCount: nat, forms: seq<Form>)

  /** What the program takes from Unicode, from the Russian stemmer and from its exception table. */
  datatype Lexicon = Lexicon(cyrillic: char -> bool, latin: char -> bool, digit: char -> bool,
                             stem: string -> string, stableSource: nat -> string, exceptions: map<string, string>)

  /** `tokenLanguage`: one script throughout, or none. */
  function Language(lex: Lexicon, token: string): string
  {
    if token == "" then ""
    else if forall i | 0 <= i < |token| :: lex.cyrillic(token[i]) then "ru"
    else if forall i | 0 <= i < |token| :: lex.latin(token[i]) && !lex.cyrillic(token[i]) then "en"
    else ""
  }

  method TokenLanguage(lex: Lexicon, token: string) returns (language: string)
    ensures language == Language(lex, token)
  {
    language := "";
    var i := 0;
    while i < |token|
      invariant i <= |token|
      invariant language == Language(lex, token[..i]) && (i > 0 ==> language != "")
    {
      var current: string;
      if lex.cyrillic(token[i]) {
        current := "ru";
      } else if lex.latin(token[i]) {
        current := "en";
      } else {
        return "";
      }
      if language != "" && language != current {
        assert token[..i][0] == token[0];
        return "";
      }
      assert forall j | 0 <= j < i :: token[..i][j] == token[..i + 1][j];
      assert token[..i + 1][i] == token[i];
      language := current;
      i := i + 1;
    }
    assert token[..i] == token;
  }

  /** `tokenNoise`. */
  predicate Noise(lex: Lexicon, token: string)
  {
    |token| <= 1 || forall i | 0 <= i < |token| :: lex.digit(token[i])
  }

  predicate HasSuffix(s: string, suffix: string) { |suffix| <= |s| && s[|s| - |suffix|..] == suffix }

  /** The first fitting suffix decides; what is left must keep more than two letters. */
  function StripSuffixes(token: string, suffixes: seq<string>): string
  {
    if suffixes == [] then token
    else if HasSuffix(token, suffixes[0]) && |token| > |suffixes[0]| + 2 then
      var base := token[..|token| - |suffixes[0]|];
      if suffixes[0] == "ied" then base + "y"
      else if (suffixes[0] == "ing" || suffixes[0] == "ed") && |base| > 2 && base[|base| - 1] == base[|base| - 2]
      then base[..|base| - 1]
      else base
    else StripSuffixes(token, suffixes[1..])
  }

  function CanonicalToken(lex: Lexicon, token: string, language: string): string
  {
    if token in lex.exceptions then lex.exceptions[token]
    else if language == "en" then StripSuffixes(token, SUFFIXES)
    else token
  }

  function GroupKey(lex: Lexicon, token: string, language: string): string
  {
    if token in lex.exceptions then lex.exceptions[token]
    else if language == "ru" then lex.stem(token)
    else CanonicalToken(lex, token, language)
  }

  lemma Suffixed(base: string, suffix: string)
    ensures HasSuffix(base + suffix, suffix) && (base + suffix)[..|base|] == base
  {
  }

  lemma LastDiffers(token: string, suffix: string)
    requires suffix != "" && token != "" && token[|token| - 1] != suffix[|suffix| - 1]
    ensures !HasSuffix(token, suffix)
  {
    if |suffix| <= |token| { assert token[|token| - |suffix|..][|suffix| - 1] == token[|token| - 1]; }
  }

  lemma BeforeLastDiffers(token: string, suffix: string)
    requires |suffix| > 1 && |token| > 1 && token[|token| - 2] != suffix[|suffix| - 2]
    ensures !HasSuffix(token, suffix)
  {
    if |suffix| <= |token| { assert token[|token| - |suffix|..][|suffix| - 2] == token[|token| - 2]; }
  }

  lemma TwoBeforeDiffers(token: string, suffix: string)
    requires |suffix| > 2 && |token| > 2 && token[|token| - 3] != suffix[|suffix| - 3]
    ensures !HasSuffix(token, suffix)
  {
    if |suffix| <= |token| { assert token[|token| - |suffix|..][|suffix| - 3] == token[|token| - 3]; }
  }

  const SUFFIXES := ["ing", "ied", "ed", "es", "s"]

  lemma Strip(token: string)
    ensures StripSuffixes(token, SUFFIXES) ==
      if HasSuffix(token, "ing") && |token| > 5 then
        var base := token[..|token| - 3]; if base[|base| - 1] == base[|base| - 2] then base[..|base| - 1] else base
      else if HasSuffix(token, "ied") && |token| > 5 then token[..|token| - 3] + "y"
      else if HasSuffix(token, "ed") && |token| > 4 then
        var base := token[..|token| - 2]; if base[|base| - 1] == base[|base| - 2] then base[..|base| - 1] else base
      else if HasSuffix(token, "es") && |token| > 4 then token[..|token| - 2]
      else if HasSuffix(token, "s") && |token| > 3 then token[..|token| - 1]
      else token
  {
    hide HasSuffix;
    SuffixesDiffer();
    assert SUFFIXES[1..] == ["ied", "ed", "es", "s"] && ["ied", "ed", "es", "s"][1..] == ["ed", "es", "s"];
    assert ["ed", "es", "s"][1..] == ["es", "s"] && ["es", "s"][1..] == ["s"] && ["s"][1..] == [];
    assert StripSuffixes(token, []) == token;
    assert StripSuffixes(token, ["s"]) == if HasSuffix(token, "s") && |token| > 3 then token[..|token| - 1] else token;
    assert StripSuffixes(token, ["es", "s"])
           == if HasSuffix(token, "es") && |token| > 4 then token[..|token| - 2] else StripSuffixes(token, ["s"]);
    assert HasSuffix(token, "ed") && |token| > 4 ==>
      StripSuffixes(token, ["ed", "es", "s"])
      == var base := token[..|token| - 2]; if base[|base| - 1] == base[|base| - 2] then base[..|base| - 1] else base;
    assert !(HasSuffix(token, "ed") && |token| > 4) ==>
      StripSuffixes(token, ["ed", "es", "s"]) == StripSuffixes(token, ["es", "s"]);
    assert StripSuffixes(token, ["ied", "ed", "es", "s"])
           == if HasSuffix(token, "ied") && |token| > 5 then token[..|token| - 3] + "y"
              else StripSuffixes(token, ["ed", "es", "s"]);
  }

  lemma SuffixesDiffer()
    ensures "ing" != "ied" && "ed" != "ing" && "ed" != "ied"
    ensures "es" !in {"ing", "ied", "ed"} && "s" !in {"ing", "ied", "ed"}
  {
    assert "ing"[1] == 'n' && "ied"[1] == 'e' && "ed"[1] == 'd' && "es"[1] == 's';
  }

  /** The regular inflections of an English word of three letters or more lead back to the word. */
  lemma Inflections(lex: Lexicon, word: string)
    requires |word| > 2
    requires forall suffix | suffix in {"ing", "ed", "ied", "es", "s"} :: word + suffix !in lex.exceptions
    ensures var last := word[|word| - 1];
      && (last != word[|word| - 2] ==> CanonicalToken(lex, word + "ing", "en") == word)
      && (last != word[|word| - 2] && last != 'i' ==> CanonicalToken(lex, word + "ed", "en") == word)
      && CanonicalToken(lex, word + "ied", "en") == word + "y"
      && CanonicalToken(lex, word + "es", "en") == word
      && (last != 'e' ==> CanonicalToken(lex, word + "s", "en") == word)
  {
    hide CanonicalToken, StripSuffixes, HasSuffix;
    EndingIngEd(lex, word);
    EndingIed(lex, word);
    EndingEs(lex, word);
    EndingS(lex, word);
  }

  lemma EndingIngEd(lex: Lexicon, word: string)
    requires |word| > 2 && word + "ing" !in lex.exceptions && word + "ed" !in lex.exceptions
    ensures word[|word| - 1] != word[|word| - 2] ==> CanonicalToken(lex, word + "ing", "en") == word
    ensures word[|word| - 1] != word[|word| - 2] && word[|word| - 1] != 'i' ==>
      CanonicalToken(lex, word + "ed", "en") == word
  {
    hide HasSuffix, StripSuffixes;
    Strip(word + "ing");
    Suffixed(word, "ing");
    Strip(word + "ed");
    Suffixed(word, "ed");
    LastDiffers(word + "ed", "ing");
    if word[|word| - 1] != 'i' { TwoBeforeDiffers(word + "ed", "ied"); }
  }

  lemma EndingIed(lex: Lexicon, word: string)
    requires |word| > 2 && word + "ied" !in lex.exceptions
    ensures CanonicalToken(lex, word + "ied", "en") == word + "y"
  {
    hide HasSuffix, StripSuffixes;
    Strip(word + "ied");
    Suffixed(word, "ied");
    LastDiffers(word + "ied", "ing");
  }

  lemma EndingEs(lex: Lexicon, word: string)
    requires |word| > 2 && word + "es" !in lex.exceptions
    ensures CanonicalToken(lex, word + "es", "en") == word
  {
    hide HasSuffix, StripSuffixes;
    Strip(word + "es");
    Suffixed(word, "es");
    LastDiffers(word + "es", "ing");
    LastDiffers(word + "es", "ied");
    LastDiffers(word + "es", "ed");
  }

  lemma EndingS(lex: Lexicon, word: string)
    requires |word| > 2 && word + "s" !in lex.exceptions
    ensures word[|word| - 1] != 'e' ==> CanonicalToken(lex, word + "s", "en") == word
  {
    hide HasSuffix, StripSuffixes;
    Strip(word + "s");
    Suffixed(word, "s");
    LastDiffers(word + "s", "ing");
    LastDiffers(word + "s", "ied");
    LastDiffers(word + "s", "ed");
    if word[|word| - 1] != 'e' { BeforeLastDiffers(word + "s", "es"); }
  }

  /** A consonant doubled before an ending is single again; short words and other languages are left as they are. */
  lemma DoubledAndOthers(lex: Lexicon, word: string, language: string)
    requires |word| > 1
    ensures var doubled := word + [word[|word| - 1]] + "ing";
            doubled !in lex.exceptions ==> CanonicalToken(lex, doubled, "en") == word
    ensures word in lex.exceptions ==> CanonicalToken(lex, word, language) == lex.exceptions[word]
    ensures word !in lex.exceptions && (language != "en" || |word| <= 3) ==> CanonicalToken(lex, word, language) == word
  {
    var long := word + [word[|word| - 1]];
    Strip(long + "ing");
    Suffixed(long, "ing");
    assert long[..|long| - 1] == word;
    Strip(word);
  }

  /** The key of the map of groups. */
  function KeyOf(lex: Lexicon, token: string): string
  {
    Language(lex, token) + "\0" + GroupKey(lex, token, Language(lex, token))
  }

  /** The table leads every form to a form of the same language that stands for itself. */
  ghost predicate WellFormed(lex: Lexicon)
  {
    forall t | t in lex.exceptions ::
      && lex.exceptions[t] in lex.exceptions
      && lex.exceptions[lex.exceptions[t]] == lex.exceptions[t]
      && Language(lex, lex.exceptions[t]) == Language(lex, t)
  }

  /**
   Which tokens share a group: tokens of one language with one exception, one Russian stem, or one English form; the
   table and the rules meet where a rule yields a word that is a head of the table.
   */
  lemma SameGroup(lex: Lexicon, a: string, b: string)
    ensures KeyOf(lex, a) == KeyOf(lex, b) ==> Language(lex, a) == Language(lex, b)
    ensures Language(lex, a) == Language(lex, b) ==>
      var ru := Language(lex, a) == "ru";
      && (a in lex.exceptions && b in lex.exceptions ==>
            (KeyOf(lex, a) == KeyOf(lex, b) <==> lex.exceptions[a] == lex.exceptions[b]))
      && (a !in lex.exceptions && b !in lex.exceptions && ru ==>
            (KeyOf(lex, a) == KeyOf(lex, b) <==> lex.stem(a) == lex.stem(b)))
      && (a !in lex.exceptions && b !in lex.exceptions && !ru ==>
            (KeyOf(lex, a) == KeyOf(lex, b) <==>
              CanonicalToken(lex, a, Language(lex, a)) == CanonicalToken(lex, b, Language(lex, b))))
      && (a in lex.exceptions && b !in lex.exceptions ==>
            (KeyOf(lex, a) == KeyOf(lex, b) <==>
              lex.exceptions[a] == if ru then lex.stem(b) else CanonicalToken(lex, b, Language(lex, b))))
  {
    if KeyOf(lex, a) == KeyOf(lex, b) { KeyLanguage(lex, a, b); }
    var l := Language(lex, a);
    if Language(lex, b) == l {
      PrefixCancels(l + "\0", GroupKey(lex, a, l), GroupKey(lex, b, l));
    }
    hide Language, CanonicalToken;
  }

  lemma PrefixCancels(p: string, a: string, b: string)
    ensures p + a == p + b <==> a == b
  {
    assert (p + a)[|p|..] == a && (p + b)[|p|..] == b;
  }

  // ----- Occurrences -----

  datatype Occurrence = Occurrence(token: string, message: string)

  predicate Kept(lex: Lexicon, token: string) { Language(lex, token) != "" && !Noise(lex, token) }

  function KeptTokens(lex: Lexicon, tokens: seq<string>, message: string): seq<Occurrence>
  {
    if tokens == [] then [] else
    var last := tokens[|tokens| - 1];
    KeptTokens(lex, tokens[..|tokens| - 1], message)
    + if Kept(lex, last) then [Occurrence(last, message)] else []
  }

  function KeptSentences(lex: Lexicon, sentences: seq<seq<string>>, message: string): seq<Occurrence>
  {
    if sentences == [] then [] else
    KeptSentences(lex, sentences[..|sentences| - 1], message)
    + KeptTokens(lex, sentences[|sentences| - 1], message)
  }

  /** A token is kept if it has more than one letter, all of one script, and is not all digits. */
  lemma KeptExact(lex: Lexicon, token: string)
    ensures Kept(lex, token) <==>
            && |token| > 1 && (exists i | 0 <= i < |token| :: !lex.digit(token[i]))
            && ((forall i | 0 <= i < |token| :: lex.cyrillic(token[i]))
                || forall i | 0 <= i < |token| :: lex.latin(token[i]) && !lex.cyrillic(token[i]))
  {
  }

  function MessageOf(lex: Lexicon, document: Document, index: nat): string
  {
    if document.source == "" then lex.stableSource(index) else document.source
  }

  /** Every kept token of every document, in reading order. */
  function Occurrences(lex: Lexicon, documents: seq<Document>): seq<Occurrence>
  {
    if documents == [] then [] else
    var n := |documents| - 1;
    Occurrences(lex, documents[..n])
    + KeptSentences(lex, documents[n].sentences, MessageOf(lex, documents[n], n))
  }

  lemma {:induction false} TokenOccurs(lex: Lexicon, tokens: seq<string>, message: string, o: Occurrence)
    ensures o in KeptTokens(lex, tokens, message) <==> o.message == message && o.token in tokens && Kept(lex, o.token)
  {
    hide Kept;
    if tokens != [] {
      TokenOccurs(lex, tokens[..|tokens| - 1], message, o);
      assert tokens == tokens[..|tokens| - 1] + [tokens[|tokens| - 1]];
    }
  }

  lemma {:induction false} SentenceOccurs(lex: Lexicon, sentences: seq<seq<string>>, message: string, o: Occurrence)
    ensures o in KeptSentences(lex, sentences, message) <==>
            o.message == message && Kept(lex, o.token) && exists s :: s in sentences && o.token in s
  {
    hide Kept, KeptTokens;
    if sentences != [] {
      var init, last := sentences[..|sentences| - 1], sentences[|sentences| - 1];
      SentenceOccurs(lex, init, message, o);
      TokenOccurs(lex, last, message, o);
      assert sentences == init + [last];
    }
  }

  /** What is counted: the kept tokens of every sentence of every document, under the document's own identifier. */
  lemma {:induction false} OccurrencesExact(lex: Lexicon, documents: seq<Document>, o: Occurrence)
    ensures o in Occurrences(lex, documents) <==>
            && Kept(lex, o.token)
            && exists d | 0 <= d < |documents| ::
                 && o.message == (if documents[d].source == "" then lex.stableSource(d) else documents[d].source)
                 && exists s :: s in documents[d].sentences && o.token in s
  {
    hide Kept, KeptSentences;
    if documents != [] {
      var n := |documents| - 1;
      OccurrencesExact(lex, documents[..n], o);
      SentenceOccurs(lex, documents[n].sentences, MessageOf(lex, documents[n], n), o);
      assert forall d | 0 <= d < n :: documents[..n][d] == documents[d];
    }
  }

  // ----- What the groups mean -----

  function TokensIn(lex: Lexicon, occurrences: seq<Occurrence>, key: string): seq<string>
  {
    if occurrences == [] then [] else
    var last := occurrences[|occurrences| - 1];
    TokensIn(lex, occurrences[..|occurrences| - 1], key) + if KeyOf(lex, last.token) == key then [last.token] else []
  }

  function MessagesIn(lex: Lexicon, occurrences: seq<Occurrence>, key: string): set<string>
  {
    if occurrences == [] then {} else
    var last := occurrences[|occurrences| - 1];
    MessagesIn(lex, occurrences[..|occurrences| - 1], key)
    + if KeyOf(lex, last.token) == key then {last.message} else {}
  }

  function KeysIn(lex: Lexicon, occurrences: seq<Occurrence>): seq<string>
  {
    seq(|occurrences|, i requires 0 <= i < |occurrences| => KeyOf(lex, occurrences[i].token))
  }

  function FormLess(a: Form, b: Form): bool
  {
    a.frequency > b.frequency || (a.frequency == b.frequency && Less(a.value, b.value))
  }

  function WordLess(a: Word, b: Word): bool
  {
    a.frequency > b.frequency || (a.frequency == b.frequency && Less(a.canonical, b.canonical))
  }

  /** The forms of a list of tokens, sorted. */
  ghost predicate IsForms(forms: seq<Form>, tokens: seq<string>)
  {
    && Ascending(FormLess, forms)
    && forall f :: f in forms <==> f.value in tokens && f.frequency == multiset(tokens)[f.value]
  }

  /** `preferredCanonical`: the first exception decides, otherwise the frequent, short, early form. */
  function Preferred(lex: Lexicon, forms: seq<Form>): string
  {
    if exists i | 0 <= i < |forms| :: forms[i].value in lex.exceptions
    then lex.exceptions[FirstException(lex, forms).value]
    else if forms == [] then "" else Best(forms).value
  }

  function FirstException(lex: Lexicon, forms: seq<Form>): (f: Form)
    requires exists i | 0 <= i < |forms| :: forms[i].value in lex.exceptions
    ensures f in forms && f.value in lex.exceptions
  {
    if forms[0].value in lex.exceptions then forms[0]
    else
      assert exists i | 0 <= i < |forms[1..]| :: forms[1..][i].value in lex.exceptions by {
        var i :| 0 <= i < |forms| && forms[i].value in lex.exceptions;
        assert forms[1..][i - 1].value in lex.exceptions;
      }
      FirstException(lex, forms[1..])
  }

  predicate Better(a: Form, b: Form)
  {
    a.frequency > b.frequency
    || (a.frequency == b.frequency
        && (|a.value| < |b.value| || (|a.value| == |b.value| && Less(a.value, b.value))))
  }

  /** The scan of `preferredCanonical` from the left. */
  function Best(forms: seq<Form>): (f: Form)
    requires forms != []
    ensures f in forms
  {
    var last := forms[|forms| - 1];
    if |forms| == 1 then last else
    var best := Best(forms[..|forms| - 1]);
    if Better(last, best) then last else best
  }

  method BestForm(forms: seq<Form>) returns (best: Form)
    requires forms != []
    ensures best == Best(forms)
  {
    hide Better;
    best := forms[0];
    assert forms[..1] == [forms[0]];
    var i := 1;
    while i < |forms|
      invariant 1 <= i <= |forms| && best == Best(forms[..i])
    {
      assert forms[..i + 1][..i] == forms[..i];
      if Better(forms[i], best) { best := forms[i]; }
      i := i + 1;
    }
    assert forms[..i] == forms;
  }

  lemma {:induction false} BestIsBest(forms: seq<Form>, i: nat)
    requires i < |forms|
    ensures !Better(forms[i], Best(forms))
  {
    var init, last := forms[..|forms| - 1], forms[|forms| - 1];
    LessTotal(last.value, last.value);
    if |forms| > 1 {
      var best := Best(init);
      if i < |init| {
        BestIsBest(init, i);
        if Better(last, best) { BetterOrder(forms[i], best, last); }
      }
    }
  }

  lemma BetterOrder(a: Form, b: Form, c: Form)
    requires !Better(a, b) && Better(c, b)
    ensures !Better(a, c)
  {
    LessTotal(a.value, b.value);
    if Less(a.value, c.value) && Less(c.value, b.value) { LessTransitive(a.value, c.value, b.value); }
  }

  /**
   The preferred form: the table decides by the first form it knows; otherwise none is more frequent, among those none
   is shorter, and among those none comes earlier in the alphabet.
   */
  lemma PreferredExact(lex: Lexicon, forms: seq<Form>)
    requires forms != []
    ensures (exists i | 0 <= i < |forms| :: forms[i].value in lex.exceptions) ==>
      exists i | 0 <= i < |forms| ::
        && forms[i].value in lex.exceptions && Preferred(lex, forms) == lex.exceptions[forms[i].value]
        && forall j | 0 <= j < i :: forms[j].value !in lex.exceptions
    ensures (forall i | 0 <= i < |forms| :: forms[i].value !in lex.exceptions) ==>
      exists f :: f in forms && Preferred(lex, forms) == f.value && forall g | g in forms ::
        && g.frequency <= f.frequency
        && (g.frequency == f.frequency ==> |g.value| >= |f.value|)
        && (g.frequency == f.frequency && |g.value| == |f.value| ==> !Less(g.value, f.value))
  {
    if exists i | 0 <= i < |forms| :: forms[i].value in lex.exceptions {
      var i := 0;
      while forms[i].value !in lex.exceptions
        invariant i < |forms| && forall j | 0 <= j < i :: forms[j].value !in lex.exceptions
        invariant exists k | i <= k < |forms| :: forms[k].value in lex.exceptions
        decreases |forms| - i
      {
        i := i + 1;
      }
      FirstExceptionAt(lex, forms, i);
    } else {
      var f := Best(forms);
      forall g | g in forms ensures !Better(g, f) {
        var i :| 0 <= i < |forms| && forms[i] == g;
        BestIsBest(forms, i);
      }
    }
  }

  method PreferredCanonical(lex: Lexicon, forms: seq<Form>) returns (canonical: string)
    ensures canonical == Preferred(lex, forms)
  {
    hide FirstException, Best;
    var i := 0;
    while i < |forms|
      invariant i <= |forms| && forall j | 0 <= j < i :: forms[j].value !in lex.exceptions
    {
      if forms[i].value in lex.exceptions {
        FirstExceptionAt(lex, forms, i);
        return lex.exceptions[forms[i].value];
      }
      i := i + 1;
    }
    if |forms| == 0 { return ""; }
    var best := BestForm(forms);
    canonical := best.value;
  }

  lemma {:induction false} FirstExceptionAt(lex: Lexicon, forms: seq<Form>, i: nat)
    requires i < |forms| && forms[i].value in lex.exceptions
    requires forall j | 0 <= j < i :: forms[j].value !in lex.exceptions
    ensures FirstException(lex, forms) == forms[i]
  {
    if i > 0 { FirstExceptionAt(lex, forms[1..], i - 1); }
  }

  // ----- The canonical form belongs to its own group -----

  lemma {:induction false} TokensInExact(lex: Lexicon, occurrences: seq<Occurrence>, key: string)
    ensures forall t :: t in TokensIn(lex, occurrences, key) <==>
              KeyOf(lex, t) == key && exists i | 0 <= i < |occurrences| :: occurrences[i].token == t
    ensures multiset(KeysIn(lex, occurrences))[key] == |TokensIn(lex, occurrences, key)|
    ensures |MessagesIn(lex, occurrences, key)| <= |TokensIn(lex, occurrences, key)|
  {
    hide KeyOf, Language;
    if occurrences != [] {
      var init, last := occurrences[..|occurrences| - 1], occurrences[|occurrences| - 1];
      TokensInExact(lex, init, key);
      assert KeysIn(lex, occurrences) == KeysIn(lex, init) + [KeyOf(lex, last.token)];
      assert forall i | 0 <= i < |init| :: init[i] == occurrences[i];
    }
  }

  /** The messages counted for a group are those in which one of its tokens occurs. */
  lemma {:induction false} MessagesInExact(lex: Lexicon, occurrences: seq<Occurrence>, key: string, message: string)
    ensures message in MessagesIn(lex, occurrences, key) <==>
            exists o :: o in occurrences && KeyOf(lex, o.token) == key && o.message == message
  {
    hide KeyOf;
    if occurrences != [] {
      var init, last := occurrences[..|occurrences| - 1], occurrences[|occurrences| - 1];
      MessagesInExact(lex, init, key, message);
      assert occurrences == init + [last];
    }
  }

  lemma PreferredInGroup(lex: Lexicon, occurrences: seq<Occurrence>, key: string, forms: seq<Form>)
    requires WellFormed(lex)
    requires IsForms(forms, TokensIn(lex, occurrences, key)) && TokensIn(lex, occurrences, key) != []
    ensures KeyOf(lex, Preferred(lex, forms)) == key
  {
    hide Language, TokensIn, FormLess, CanonicalToken;
    var tokens := TokensIn(lex, occurrences, key);
    TokensInExact(lex, occurrences, key);
    assert Form(tokens[0], multiset(tokens)[tokens[0]]) in forms;
    if exists i | 0 <= i < |forms| :: forms[i].value in lex.exceptions {
      var f := FirstException(lex, forms);
      assert f.value in tokens;
      assert KeyOf(lex, lex.exceptions[f.value]) == KeyOf(lex, f.value);
    } else {
      assert Best(forms).value in tokens;
    }
  }

  // ----- The output is determined -----

  ghost predicate IsWord(lex: Lexicon, occurrences: seq<Occurrence>, key: string, w: Word)
  {
    var tokens := TokensIn(lex, occurrences, key);
    && IsForms(w.forms, tokens) && w.canonical == Preferred(lex, w.forms)
    && w.frequency == |tokens| && w.messageCount == |MessagesIn(lex, occurrences, key)|
    && forall t | t in tokens :: w.language == Language(lex, t)
  }

  /** One word for every group, most frequent first. */
  ghost predicate IsOutput(lex: Lexicon, occurrences: seq<Occurrence>, words: seq<Word>)
  {
    && Ascending(WordLess, words)
    && forall w :: w in words <==> Describes(lex, occurrences, w)
  }

  /** Some group is described by the word. */
  ghost predicate Describes(lex: Lexicon, occurrences: seq<Occurrence>, w: Word)
  {
    exists key :: key in KeysIn(lex, occurrences) && IsWord(lex, occurrences, key, w)
  }

  lemma FormLessTotal(forms: set<Form>)
    requires forall f, g | f in forms && g in forms && f.value == g.value :: f == g
    ensures StrictTotalOn(FormLess, forms)
  {
    forall f, g | f in forms && g in forms
      ensures f == g || FormLess(f, g) || FormLess(g, f)
      ensures FormLess(f, g) ==> !FormLess(g, f)
    { LessTotal(f.value, g.value); }
    forall f, g, h | f in forms && g in forms && h in forms && FormLess(f, g) && FormLess(g, h)
      ensures FormLess(f, h)
    { if Less(f.value, g.value) && Less(g.value, h.value) { LessTransitive(f.value, g.value, h.value); } }
  }

  lemma WordLessTotal(words: set<Word>)
    requires forall v, w | v in words && w in words && v.canonical == w.canonical :: v == w
    ensures StrictTotalOn(WordLess, words)
  {
    forall v, w | v in words && w in words
      ensures v == w || WordLess(v, w) || WordLess(w, v)
      ensures WordLess(v, w) ==> !WordLess(w, v)
    { LessTotal(v.canonical, w.canonical); }
    forall u, v, w | u in words && v in words && w in words && WordLess(u, v) && WordLess(v, w)
      ensures WordLess(u, w)
    {
      if Less(u.canonical, v.canonical) && Less(v.canonical, w.canonical) {
        LessTransitive(u.canonical, v.canonical, w.canonical);
      }
    }
  }

  lemma FormsUnique(a: seq<Form>, b: seq<Form>, tokens: seq<string>)
    requires IsForms(a, tokens) && IsForms(b, tokens)
    ensures a == b
  {
    FormLessTotal(Elements(a));
    AscendingUnique(FormLess, a, b);
  }

  /** Groups with equal canonical forms are the same group. */
  lemma CanonicalDistinct(lex: Lexicon, occurrences: seq<Occurrence>, j: string, v: Word, k: string, w: Word)
    requires WellFormed(lex)
    requires j in KeysIn(lex, occurrences) && k in KeysIn(lex, occurrences)
    requires IsWord(lex, occurrences, j, v) && IsWord(lex, occurrences, k, w) && (j == k || v.canonical == w.canonical)
    ensures j == k && v == w
  {
    hide WellFormed, IsForms, Preferred, KeyOf, Language;
    TokensInExact(lex, occurrences, j);
    TokensInExact(lex, occurrences, k);
    assert TokensIn(lex, occurrences, j) != [] && TokensIn(lex, occurrences, k) != [];
    PreferredInGroup(lex, occurrences, j, v.forms);
    PreferredInGroup(lex, occurrences, k, w.forms);
    FormsUnique(v.forms, w.forms, TokensIn(lex, occurrences, k));
    assert v.language == Language(lex, TokensIn(lex, occurrences, k)[0]) == w.language;
  }

  /** Any two outputs for the same occurrences are equal, so the order in which the maps are walked is invisible. */
  lemma OutputUnique(lex: Lexicon, occurrences: seq<Occurrence>, a: seq<Word>, b: seq<Word>)
    requires WellFormed(lex) && IsOutput(lex, occurrences, a) && IsOutput(lex, occurrences, b)
    ensures a == b
  {
    hide WellFormed, IsWord, WordLess;
    forall v, w | v in Elements(a) && w in Elements(a) && v.canonical == w.canonical ensures v == w {
      var j :| j in KeysIn(lex, occurrences) && IsWord(lex, occurrences, j, v);
      var k :| k in KeysIn(lex, occurrences) && IsWord(lex, occurrences, k, w);
      CanonicalDistinct(lex, occurrences, j, v, k, w);
    }
    WordLessTotal(Elements(a));
    AscendingUnique(WordLess, a, b);
  }

  /** The order of the output: more frequent words and forms come first, and equally frequent ones by the alphabet. */
  lemma OutputOrder(lex: Lexicon, occurrences: seq<Occurrence>, words: seq<Word>, i: nat, j: nat)
    requires IsOutput(lex, occurrences, words) && i < |words|
    ensures i < j < |words| ==>
      && words[i].frequency >= words[j].frequency
      && (words[i].frequency == words[j].frequency ==> Less(words[i].canonical, words[j].canonical))
    ensures forall k, l | 0 <= k < l < |words[i].forms| ::
      var f, g := words[i].forms[k], words[i].forms[l];
      f.frequency >= g.frequency && (f.frequency == g.frequency ==> Less(f.value, g.value))
  {
    hide Less;
    assert words[i] in words && Describes(lex, occurrences, words[i]);
    var key :| key in KeysIn(lex, occurrences) && IsWord(lex, occurrences, key, words[i]);
    forall k, l | 0 <= k < l < |words[i].forms| ensures FormLess(words[i].forms[k], words[i].forms[l]) {}
  }

  // ----- Nothing is lost and nothing counted twice -----

  function Frequencies(words: seq<Word>): nat
  {
    if words == [] then 0 else Frequencies(words[..|words| - 1]) + words[|words| - 1].frequency
  }

  function FormFrequencies(forms: seq<Form>): nat
  {
    if forms == [] then 0 else FormFrequencies(forms[..|forms| - 1]) + forms[|forms| - 1].frequency
  }

  /** How often the listed labels occur, taken together. */
  function Share(labels: multiset<string>, listed: seq<string>): nat
  {
    if listed == [] then 0 else Share(labels, listed[..|listed| - 1]) + labels[listed[|listed| - 1]]
  }

  /** Labels listed once each and completely account for every occurrence. */
  lemma {:induction false} ShareComplete(labels: multiset<string>, listed: seq<string>)
    requires Distinct(listed) && forall l | l in labels :: l in listed
    ensures Share(labels, listed) == |labels|
  {
    if listed == [] {
      assert labels == multiset{};
    } else {
      var init, last := listed[..|listed| - 1], listed[|listed| - 1];
      var rest := labels[last := 0];
      assert last !in init;
      ShareComplete(rest, init);
      SameShare(labels, rest, init);
      assert labels == rest + multiset{}[last := labels[last]];
    }
  }

  lemma {:induction false} SameShare(a: multiset<string>, b: multiset<string>, listed: seq<string>)
    requires forall l | l in listed :: a[l] == b[l]
    ensures Share(a, listed) == Share(b, listed)
  {
    if listed != [] { SameShare(a, b, listed[..|listed| - 1]); }
  }

  lemma {:induction false} FormShare(forms: seq<Form>, tokens: multiset<string>) returns (values: seq<string>)
    requires forall f | f in forms :: f.frequency == tokens[f.value]
    ensures |values| == |forms| && forall i | 0 <= i < |forms| :: values[i] == forms[i].value
    ensures FormFrequencies(forms) == Share(tokens, values)
  {
    if forms == [] { return []; }
    var init := FormShare(forms[..|forms| - 1], tokens);
    values := init + [forms[|forms| - 1].value];
    assert values[..|values| - 1] == init;
  }

  /** A word's frequency is the sum of its forms' frequencies, and no fewer than its messages. */
  lemma WordConserves(lex: Lexicon, occurrences: seq<Occurrence>, key: string, w: Word)
    requires IsWord(lex, occurrences, key, w)
    ensures w.frequency == FormFrequencies(w.forms)
    ensures w.messageCount <= w.frequency
  {
    hide KeyOf, Preferred, Language, Less;
    TokensInExact(lex, occurrences, key);
    var tokens := TokensIn(lex, occurrences, key);
    var values := FormShare(w.forms, multiset(tokens));
    forall t | t in multiset(tokens) ensures t in values {
      var f := Form(t, multiset(tokens)[t]);
      assert f in w.forms;
      var i :| 0 <= i < |w.forms| && w.forms[i] == f;
      assert values[i] == t;
    }
    forall i, j | 0 <= i < j < |values| ensures values[i] != values[j] {
      assert FormLess(w.forms[i], w.forms[j]);
      assert w.forms[i] in w.forms && w.forms[j] in w.forms;
      LessTotal(values[i], values[j]);
    }
    ShareComplete(multiset(tokens), values);
  }

  lemma GroupOf(lex: Lexicon, occurrences: seq<Occurrence>, w: Word) returns (key: string)
    requires Describes(lex, occurrences, w)
    ensures key in KeysIn(lex, occurrences) && IsWord(lex, occurrences, key, w)
    ensures w.frequency == multiset(KeysIn(lex, occurrences))[key]
  {
    key :| key in KeysIn(lex, occurrences) && IsWord(lex, occurrences, key, w);
    TokensInExact(lex, occurrences, key);
  }

  lemma {:induction false} WordShare(lex: Lexicon, occurrences: seq<Occurrence>, words: seq<Word>)
    returns (keys: seq<string>)
    requires forall w | w in words :: Describes(lex, occurrences, w)
    ensures |keys| == |words|
    ensures forall i | 0 <= i < |words| ::
              keys[i] in KeysIn(lex, occurrences) && IsWord(lex, occurrences, keys[i], words[i])
    ensures Frequencies(words) == Share(multiset(KeysIn(lex, occurrences)), keys)
  {
    hide KeysIn, IsWord, Describes;
    if words == [] { return []; }
    var init := WordShare(lex, occurrences, words[..|words| - 1]);
    var key := GroupOf(lex, occurrences, words[|words| - 1]);
    keys := init + [key];
    assert keys[..|keys| - 1] == init;
  }

  lemma KeyLanguage(lex: Lexicon, a: string, b: string)
    requires KeyOf(lex, a) == KeyOf(lex, b)
    ensures Language(lex, a) == Language(lex, b)
  {
    var x, y := Language(lex, a), Language(lex, b);
    var u, v := GroupKey(lex, a, x), GroupKey(lex, b, y);
    LanguageCodes(lex, a);
    LanguageCodes(lex, b);
    hide Language, GroupKey;
    assert KeyOf(lex, a)[0] == if x == "" then '\0' else x[0];
    assert KeyOf(lex, b)[0] == if y == "" then '\0' else y[0];
  }

  lemma LanguageCodes(lex: Lexicon, token: string)
    ensures Language(lex, token) in {"", "ru", "en"}
  {
  }

  lemma {:induction false} FormsOf(tokens: seq<string>, values: set<string>) returns (forms: seq<Form>)
    requires forall t | t in values :: t in tokens
    ensures forall f :: f in forms <==> f.value in values && f.frequency == multiset(tokens)[f.value]
    ensures Distinct(forms)
    decreases values
  {
    if values == {} { return []; }
    var t :| t in values;
    var rest := FormsOf(tokens, values - {t});
    forms := [Form(t, multiset(tokens)[t])] + rest;
  }

  lemma SortedForms(forms: seq<Form>, tokens: seq<string>)
    requires forall f :: f in forms <==> f.value in tokens && f.frequency == multiset(tokens)[f.value]
    requires Distinct(forms)
    ensures IsForms(Sort(FormLess, forms), tokens)
  {
    FormLessTotal(Elements(forms));
    SortAscending(FormLess, forms);
  }

  lemma WordExists(lex: Lexicon, occurrences: seq<Occurrence>, key: string) returns (w: Word)
    requires key in KeysIn(lex, occurrences)
    ensures IsWord(lex, occurrences, key, w)
  {
    hide KeyOf, Language, Preferred;
    TokensInExact(lex, occurrences, key);
    var tokens := TokensIn(lex, occurrences, key);
    assert tokens != [];
    forall t | t in tokens ensures Language(lex, t) == Language(lex, tokens[0]) { KeyLanguage(lex, t, tokens[0]); }
    var forms := FormsOf(tokens, Elements(tokens));
    SortedForms(forms, tokens);
    var sorted := Sort(FormLess, forms);
    w := Word(Preferred(lex, sorted), Language(lex, tokens[0]), |tokens|, |MessagesIn(lex, occurrences, key)|, sorted);
  }

  /** The frequencies of an output add up to the number of kept tokens. */
  lemma OutputConserves(lex: Lexicon, occurrences: seq<Occurrence>, words: seq<Word>)
    requires WellFormed(lex) && IsOutput(lex, occurrences, words)
    ensures Frequencies(words) == |occurrences|
  {
    hide WellFormed, IsWord, Less;
    var keys := WordShare(lex, occurrences, words);
    forall i, j | 0 <= i < j < |keys| ensures keys[i] != keys[j] {
      if keys[i] == keys[j] {
        CanonicalDistinct(lex, occurrences, keys[i], words[i], keys[j], words[j]);
        assert WordLess(words[i], words[j]);
        LessTotal(words[i].canonical, words[i].canonical);
        assert false;
      }
    }
    forall k | k in multiset(KeysIn(lex, occurrences)) ensures k in keys {
      var w := WordExists(lex, occurrences, k);
      assert Describes(lex, occurrences, w);
      var i :| 0 <= i < |words| && words[i] == w;
      CanonicalDistinct(lex, occurrences, k, w, keys[i], w);
    }
    ShareComplete(multiset(KeysIn(lex, occurrences)), keys);
  }

  // ----- The program -----

  /** `canonicalAggregate`. */
  datatype Group = Group(language: string, frequency: nat, forms: map<string, nat>, messages: set<string>)

  ghost predicate IsGroup(lex: Lexicon, tokens: seq<string>, messages: set<string>, g: Group)
  {
    && g.frequency == |tokens| && g.messages == messages
    && g.forms.Keys == Elements(tokens)
    && (forall t | t in tokens :: g.forms[t] == multiset(tokens)[t] && g.language == Language(lex, t))
  }

  ghost predicate Grouped(lex: Lexicon, occurrences: seq<Occurrence>, groups: map<string, Group>)
  {
    forall k ::
      && (k in groups <==> k in KeysIn(lex, occurrences))
      && (k in groups ==> IsGroup(lex, TokensIn(lex, occurrences, k), MessagesIn(lex, occurrences, k), groups[k]))
  }

  function Counted(g: Group, token: string, message: string): Group
  {
    var before := if token in g.forms then g.forms[token] else 0;
    g.(frequency := g.frequency + 1, forms := g.forms[token := before + 1], messages := g.messages + {message})
  }

  lemma CountedGroup(lex: Lexicon, tokens: seq<string>, messages: set<string>, g: Group, token: string, message: string)
    requires IsGroup(lex, tokens, messages, g) && g.language == Language(lex, token)
    ensures IsGroup(lex, tokens + [token], messages + {message}, Counted(g, token, message))
  {
    hide Language;
    var after := Counted(g, token, message);
    assert multiset(tokens + [token]) == multiset(tokens) + multiset{token};
    assert token !in tokens ==> multiset(tokens)[token] == 0;
  }

  function GroupFor(lex: Lexicon, groups: map<string, Group>, token: string): Group
  {
    if KeyOf(lex, token) in groups then groups[KeyOf(lex, token)] else Group(Language(lex, token), 0, map[], {})
  }

  lemma GroupForToken(lex: Lexicon, occurrences: seq<Occurrence>, groups: map<string, Group>, token: string)
    requires Grouped(lex, occurrences, groups)
    ensures var key, g := KeyOf(lex, token), GroupFor(lex, groups, token);
            && IsGroup(lex, TokensIn(lex, occurrences, key), MessagesIn(lex, occurrences, key), g)
            && g.language == Language(lex, token)
  {
    var key := KeyOf(lex, token);
    TokensInExact(lex, occurrences, key);
    var tokens := TokensIn(lex, occurrences, key);
    if key in groups { KeyLanguage(lex, tokens[0], token); }
    hide KeyOf, Language, KeysIn;
  }

  lemma GroupedStep(lex: Lexicon, occurrences: seq<Occurrence>, groups: map<string, Group>, o: Occurrence)
    requires Grouped(lex, occurrences, groups)
    ensures Grouped(lex, occurrences + [o],
                    groups[KeyOf(lex, o.token) := Counted(GroupFor(lex, groups, o.token), o.token, o.message)])
  {
    hide KeyOf, Language, IsGroup, Counted, GroupFor;
    var key, g := KeyOf(lex, o.token), GroupFor(lex, groups, o.token);
    var all := occurrences + [o];
    assert all[..|all| - 1] == occurrences;
    assert KeysIn(lex, all) == KeysIn(lex, occurrences) + [key];
    hide KeysIn;
    GroupForToken(lex, occurrences, groups, o.token);
    CountedGroup(lex, TokensIn(lex, occurrences, key), MessagesIn(lex, occurrences, key), g, o.token, o.message);
    forall k | k != key
      ensures TokensIn(lex, all, k) == TokensIn(lex, occurrences, k)
      ensures MessagesIn(lex, all, k) == MessagesIn(lex, occurrences, k)
    {}
  }

  method CountTokens(lex: Lexicon, ghost seen: seq<Occurrence>, groups: map<string, Group>, tokens: seq<string>,
                     message: string)
    returns (after: map<string, Group>)
    requires Grouped(lex, seen, groups)
    ensures Grouped(lex, seen + KeptTokens(lex, tokens, message), after)
  {
    hide Grouped, KeyOf, GroupKey, Noise, Language;
    after := groups;
    assert seen + KeptTokens(lex, [], message) == seen;
    for i := 0 to |tokens|
      invariant Grouped(lex, seen + KeptTokens(lex, tokens[..i], message), after)
    {
      var token := tokens[i];
      ghost var before := KeptTokens(lex, tokens[..i], message);
      assert tokens[..i + 1][..i] == tokens[..i];
      var language := TokenLanguage(lex, token);
      if language == "" || Noise(lex, token) {
        assert KeptTokens(lex, tokens[..i + 1], message) == before;
        continue;
      }
      Assoc(seen, before, [Occurrence(token, message)]);
      GroupedStep(lex, seen + before, after, Occurrence(token, message));
      var key := language + "\0" + GroupKey(lex, token, language);
      assert key == KeyOf(lex, token) by { KeyText(lex, token); }
      var item := if key in after then after[key] else Group(language, 0, map[], {});
      after := after[key := Counted(item, token, message)];
    }
    assert tokens[..|tokens|] == tokens;
  }

  lemma KeyText(lex: Lexicon, token: string)
    ensures Language(lex, token) + "\0" + GroupKey(lex, token, Language(lex, token)) == KeyOf(lex, token)
  {
  }

  method CountDocuments(lex: Lexicon, documents: seq<Document>) returns (groups: map<string, Group>)
    ensures Grouped(lex, Occurrences(lex, documents), groups)
  {
    groups := map[];
    for d := 0 to |documents|
      invariant Grouped(lex, Occurrences(lex, documents[..d]), groups)
    {
      hide Grouped, KeptTokens;
      var message := MessageOf(lex, documents[d], d);
      var sentences := documents[d].sentences;
      ghost var seen := Occurrences(lex, documents[..d]);
      assert seen + KeptSentences(lex, [], message) == seen;
      for i := 0 to |sentences|
        invariant Grouped(lex, seen + KeptSentences(lex, sentences[..i], message), groups)
      {
        ghost var before := KeptSentences(lex, sentences[..i], message);
        assert sentences[..i + 1][..i] == sentences[..i];
        groups := CountTokens(lex, seen + before, groups, sentences[i], message);
        Assoc(seen, before, KeptTokens(lex, sentences[i], message));
      }
      assert sentences[..|sentences|] == sentences;
      assert documents[..d + 1][..d] == documents[..d];
    }
    assert documents[..|documents|] == documents;
  }

  /** Forms read back from the counters in any order, then sorted. */
  method SortForms(counts: map<string, nat>) returns (forms: seq<Form>)
    ensures Ascending(FormLess, forms)
    ensures forall f :: f in forms <==> f.value in counts && f.frequency == counts[f.value]
  {
    var todo := counts.Keys;
    forms := [];
    while todo != {}
      invariant todo <= counts.Keys && Distinct(forms)
      invariant forall f :: f in forms <==> f.value in counts.Keys - todo && f.frequency == counts[f.value]
    {
      var value :| value in todo;
      assert Form(value, counts[value]) !in forms;
      forms := forms + [Form(value, counts[value])];
      todo := todo - {value};
    }
    FormLessTotal(Elements(forms));
    SortAscending(FormLess, forms);
    forms := Sort(FormLess, forms);
  }

  method WordOf(lex: Lexicon, ghost occurrences: seq<Occurrence>, ghost key: string, item: Group) returns (w: Word)
    requires IsGroup(lex, TokensIn(lex, occurrences, key), MessagesIn(lex, occurrences, key), item)
    ensures IsWord(lex, occurrences, key, w)
  {
    hide TokensIn, MessagesIn, Preferred, Language;
    var forms := SortForms(item.forms);
    var canonical := PreferredCanonical(lex, forms);
    w := Word(canonical, item.language, item.frequency, |item.messages|, forms);
  }

  /** `ExtractCanonicalWords`: whatever order the map of groups is walked in, the output is the one there is. */
  method ExtractCanonicalWords(lex: Lexicon, documents: seq<Document>) returns (result: seq<Word>)
    requires WellFormed(lex)
    ensures IsOutput(lex, Occurrences(lex, documents), result)
  {
    hide IsWord, WellFormed, IsGroup, TokensIn, MessagesIn, Occurrences, KeysIn, WordLess;
    var groups := CountDocuments(lex, documents);
    ghost var occurrences := Occurrences(lex, documents);
    var todo := groups.Keys;
    ghost var keys := [];
    result := [];
    while todo != {}
      invariant todo <= groups.Keys && |keys| == |result| && Distinct(keys)
      invariant forall k :: k in keys <==> k in groups.Keys - todo
      invariant forall i | 0 <= i < |keys| :: IsWord(lex, occurrences, keys[i], result[i])
    {
      var key :| key in todo;
      assert key !in keys;
      var w := WordOf(lex, occurrences, key, groups[key]);
      result, keys := result + [w], keys + [key];
      todo := todo - {key};
    }
    WordsSorted(lex, occurrences, keys, result);
    result := Sort(WordLess, result);
  }

  lemma WordsSorted(lex: Lexicon, occurrences: seq<Occurrence>, keys: seq<string>, words: seq<Word>)
    requires WellFormed(lex) && |keys| == |words| && Distinct(keys)
    requires forall k :: k in keys <==> k in KeysIn(lex, occurrences)
    requires forall i | 0 <= i < |keys| :: IsWord(lex, occurrences, keys[i], words[i])
    ensures IsOutput(lex, occurrences, Sort(WordLess, words))
  {
    hide IsWord, WellFormed, KeysIn, WordLess;
    forall i, j | 0 <= i < |words| && 0 <= j < |words| && (words[i].canonical == words[j].canonical)
      ensures i == j
    {
      assert keys[i] in keys && keys[j] in keys;
      CanonicalDistinct(lex, occurrences, keys[i], words[i], keys[j], words[j]);
    }
    WordLessTotal(Elements(words));
    SortAscending(WordLess, words);
    forall w ensures w in words <==> Describes(lex, occurrences, w) {
      if w in words {
        var i :| 0 <= i < |words| && words[i] == w;
        assert keys[i] in keys;
      }
      if Describes(lex, occurrences, w) {
        var k :| k in KeysIn(lex, occurrences) && IsWord(lex, occurrences, k, w);
        var i :| 0 <= i < |keys| && keys[i] == k;
        CanonicalDistinct(lex, occurrences, k, w, k, words[i]);
      }
    }
  }

  // ----- The program's own table -----

  const MONEY: set<string> := {
    "деньги", "денег", "деньгам", "деньгами", "деньгах",
    "деньжата", "деньжат", "деньжатам", "деньжатами",
    "денюжки", "денюжек", "денюжкам", "денюжками",
    "деньгосы", "деньгосов", "деньгосам", "деньгосами" }

  const CASH: set<string> := {
    "бабки", "бабок", "бабкам", "бабками",
    "бабосы", "бабосов", "бабосам", "бабосами",
    "бабосики", "бабосиков" }

  const BUY: set<string> := {"buy", "buys", "buying", "bought"}

  /** `canonicalExceptions`. */
  function Exceptions(): map<string, string>
  {
    (map t | t in MONEY :: "деньги")
    + (map t | t in CASH :: "бабки")
    + (map t | t in BUY :: "buy")
  }

  predicate Within(s: string, low: char, high: char)
  {
    s != "" && forall i | 0 <= i < |s| :: low <= s[i] <= high
  }

  lemma BuyScript(t: string)
    requires t in BUY
    ensures Within(t, 'a', 'z') && t[0] == 'b'
  {
  }

  lemma CashScript(t: string)
    requires t in CASH
    ensures Within(t, 'а', 'я') && t[0] == 'б'
  {
  }

  lemma MoneyScript(t: string)
    requires t in MONEY
    ensures Within(t, 'а', 'я') && t[0] == 'д'
  {
  }

  lemma ExceptionOf(t: string)
    requires t in Exceptions()
    ensures t in MONEY ==> Exceptions()[t] == "деньги"
    ensures t in CASH ==> Exceptions()[t] == "бабки"
    ensures t in BUY ==> Exceptions()[t] == "buy"
    ensures t in MONEY || t in CASH || t in BUY
  {
    if t in MONEY { MoneyScript(t); }
    if t in CASH { CashScript(t); }
    if t in BUY { BuyScript(t); }
    hide MONEY, CASH, BUY;
  }

  lemma HeadsListed()
    ensures "деньги" in MONEY && "бабки" in CASH && "buy" in BUY
    ensures "деньги" in Exceptions() && "бабки" in Exceptions() && "buy" in Exceptions()
  {
  }

  /** The program's table is well formed for any scripts that contain the letters it is written in. */
  lemma ProgramTable(lex: Lexicon)
    requires lex.exceptions == Exceptions()
    requires forall c | 'а' <= c <= 'я' :: lex.cyrillic(c)
    requires forall c | 'a' <= c <= 'z' :: lex.latin(c) && !lex.cyrillic(c)
    ensures WellFormed(lex)
  {
    HeadsListed();
    forall t | t in lex.exceptions
      ensures lex.exceptions[t] in lex.exceptions && lex.exceptions[lex.exceptions[t]] == lex.exceptions[t]
      ensures Language(lex, lex.exceptions[t]) == Language(lex, t)
    {
      var head := lex.exceptions[t];
      ExceptionOf(t);
      ExceptionOf(head);
      TableLanguage(lex, t);
      TableLanguage(lex, head);
      hide Exceptions, Language;
    }
  }

  lemma TableLanguage(lex: Lexicon, t: string)
    requires forall c | 'а' <= c <= 'я' :: lex.cyrillic(c)
    requires forall c | 'a' <= c <= 'z' :: lex.latin(c) && !lex.cyrillic(c)
    ensures t in MONEY || t in CASH ==> Language(lex, t) == "ru"
    ensures t in BUY ==> Language(lex, t) == "en"
  {
    if t in MONEY { MoneyScript(t); }
    if t in CASH { CashScript(t); }
    if t in BUY { BuyScript(t); }
  }
}
