/** The spellings of one chat: which texts share a key, and how each is stored. */
module Spellings {
  import opened Common
  import opened Refs

  // ---------------------------------------------------------------- the parts of a spelling

  predicate IsLetter(c: char) {
    'a' <= c <= 'z' || 'A' <= c <= 'Z'
  }

  predicate IsDigit(c: char) {
    '0' <= c <= '9'
  }

  /** A user name: a letter, then letters, digits and underscores. */
  predicate Name(s: string) {
    s != "" && IsLetter(s[0]) && forall i :: 0 <= i < |s| ==> IsLetter(s[i]) || IsDigit(s[i]) || s[i] == '_'
  }

  /** A number: digits, perhaps behind a minus sign. */
  predicate Number(s: string) {
    IsDigits(if "-" <= s then s[1..] else s)
  }

  /** What a name or a number may stand behind. */
  predicate Lead(s: string) {
    s in {"", "@", "https://t.me/", "http://t.me/", "https://t.me/@", "http://t.me/@"}
  }

  /** What may follow it: slashes, then perhaps a query string. */
  ghost predicate Tail(s: string) {
    (exists n: nat :: SlashesUpTo(s, n)) && (s == "" || !IsSpace(s[|s| - 1]))
  }

  ghost predicate SlashesUpTo(s: string, n: nat) {
    n <= |s| && (forall i :: 0 <= i < n ==> s[i] == '/') && (n == |s| || s[n] == '?')
  }

  predicate Blank(s: string) {
    forall i :: 0 <= i < |s| ==> s[i] in {' ', '\t', '\n', '\r'}
  }

  // ---------------------------------------------------------------- cutting and trimming

  lemma {:induction false} RTrimAll(s: string, t: string, p: char -> bool)
    requires (s == "" || !p(s[|s| - 1])) && forall i :: 0 <= i < |t| ==> p(t[i])
    ensures RTrim(s + t, p) == s
  {
    if t == "" {
      assert s + t == s;
    } else {
      assert (s + t)[..|s + t| - 1] == s + t[..|t| - 1];
      RTrimAll(s, t[..|t| - 1], p);
    }
  }

  lemma {:induction false} LTrimAll(t: string, s: string, p: char -> bool)
    requires (s == "" || !p(s[0])) && forall i :: 0 <= i < |t| ==> p(t[i])
    ensures LTrim(t + s, p) == s
  {
    if t == "" {
      assert t + s == s;
    } else {
      assert (t + s)[1..] == t[1..] + s;
      LTrimAll(t[1..], s, p);
    }
  }

  /** Stripping takes the blanks around a text and nothing of the text. */
  lemma StripBlanks(a: string, text: string, b: string)
    requires Blank(a) && Blank(b) && text != "" && !IsSpace(text[0]) && !IsSpace(text[|text| - 1])
    ensures Strip(a + text + b) == text
  {
    RTrimAll(a + text, b, IsSpace);
    LTrimAll(a, text, IsSpace);
  }

  lemma {:induction false} BeforeAt(s: string, c: char, n: nat)
    requires n <= |s| && (forall i :: 0 <= i < n ==> s[i] != c) && (n == |s| || s[n] == c)
    ensures Before(s, c) == s[..n]
  {
    if n > 0 {
      BeforeAt(s[1..], c, n - 1);
    }
  }

  predicate OccursAt(s: string, sub: string, n: nat) {
    n + |sub| <= |s| && s[n..n + |sub|] == sub
  }

  /** A text that contains another contains its characters. */
  lemma {:induction false} CharOf(text: string, sub: string, p: nat)
    requires p < |sub|
    ensures Has(text, sub) ==> sub[p] in text
  {
    if sub <= text {
      assert text[p] == sub[p];
    } else if text != "" {
      assert forall c :: c in text[1..] ==> c in text;
      CharOf(text[1..], sub, p);
    }
  }

  lemma OccursLater(s: string, sub: string, n: nat)
    requires s != ""
    ensures OccursAt(s[1..], sub, n) <==> OccursAt(s, sub, n + 1)
  {
    if n + 1 + |sub| <= |s| {
      assert s[1..][n..n + |sub|] == s[n + 1..n + 1 + |sub|];
    }
  }

  /** What follows a text is what follows its first occurrence. */
  lemma {:induction false} AfterAt(s: string, sub: string, n: nat)
    requires OccursAt(s, sub, n) && forall j: nat :: j < n ==> !OccursAt(s, sub, j)
    ensures After(s, sub) == Some(s[n + |sub|..])
  {
    if n == 0 {
      assert sub <= s;
    } else {
      assert !OccursAt(s, sub, 0) && !(sub <= s);
      OccursLater(s, sub, n - 1);
      forall j: nat | j < n - 1 ensures !OccursAt(s[1..], sub, j) {
        OccursLater(s, sub, j);
        assert !OccursAt(s, sub, j + 1);
      }
      AfterAt(s[1..], sub, n - 1);
    }
  }

  // ---------------------------------------------------------------- the path of a spelling

  lemma HeadPlain(at: string, word: string)
    requires at in {"", "@"} && (Name(word) || Number(word))
    ensures at + word != "" && forall i :: 0 <= i < |at + word| ==> (at + word)[i] != '?' && (at + word)[i] != '/'
  {
    assert word != "" && forall i :: 0 <= i < |word| ==> word[i] != '?' && word[i] != '/';
  }

  /** A name or a number, with or without its `@`, and what follows it. */
  lemma WordPath(at: string, word: string, tail: string)
    requires at in {"", "@"} && (Name(word) || Number(word)) && Tail(tail)
    ensures Trim(Before(at + word + tail, '?'), IsSlash) == at + word
  {
    HeadPlain(at, word);
    hide Name, Number;
    var n: nat :| SlashesUpTo(tail, n);
    var text := at + word + tail;
    var head := at + word;
    BeforeAt(text, '?', |head| + n);
    assert text[..|head| + n] == head + tail[..n];
    RTrimAll(head, tail[..n], IsSlash);
  }

  lemma NotPrefix(sub: string, text: string, i: nat)
    requires i < |sub| && (i < |text| ==> text[i] != sub[i])
    ensures !(sub <= text)
  {
  }

  /** A name or a number alone is no link to the host. */
  lemma NoScheme(at: string, word: string, tail: string)
    requires at in {"", "@"} && (Name(word) || Number(word)) && Tail(tail)
    ensures !("https://t.me/" <= at + word + tail) && !("http://t.me/" <= at + word + tail)
  {
    var text, https, http := at + word + tail, "https://t.me/", "http://t.me/";
    var n: nat :| SlashesUpTo(tail, n);
    assert at == "@" ==> text[0] == '@';
    assert at == "" ==> text == word + tail;
    assert https[0] == 'h' && https[1] == 't' && https[2] == 't' && https[3] == 'p' && https[4] == 's';
    assert https[5] == ':';
    assert http[0] == 'h' && http[1] == 't' && http[2] == 't' && http[3] == 'p' && http[4] == ':';
    NotPrefix(https, text, if at == "@" then 0 else if |word| < 5 then |word| else 5);
    NotPrefix(http, text, if at == "@" then 0 else if |word| < 4 then |word| else 4);
  }

  lemma NotAt(text: string, sub: string, n: nat, i: nat)
    requires i < |sub| && (n + i < |text| ==> text[n + i] != sub[i])
    ensures !OccursAt(text, sub, n)
  {
    if n + |sub| <= |text| {
      assert text[n..n + |sub|][i] == text[n + i];
    }
  }

  /** The host occurs in a link first behind its scheme. */
  lemma LinkPath(scheme: string, rest: string)
    requires scheme in {"https://", "http://"}
    ensures After(scheme + "t.me/" + rest, "t.me/") == Some(rest)
    ensures "https://t.me/" <= scheme + "t.me/" + rest || "http://t.me/" <= scheme + "t.me/" + rest
  {
    var text, host := scheme + "t.me/" + rest, "t.me/";
    assert text == scheme + host + rest && host[0] == 't' && host[1] == '.';
    forall j: nat | j < |scheme| ensures !OccursAt(text, host, j) {
      NotAt(text, host, j, if scheme[j] != 't' then 0 else 1);
    }
    AfterAt(text, host, |scheme|);
    assert scheme + host == "https://t.me/" || scheme + host == "http://t.me/";
    assert scheme + host <= text;
  }

  // ---------------------------------------------------------------- numbers

  function DigitOf(c: char): nat
    requires IsDigit(c)
  {
    c as int - '0' as int
  }

  /** The number a text of digits stands for. */
  function NatOf(digits: string): nat
    requires forall i :: 0 <= i < |digits| ==> IsDigit(digits[i])
  {
    if digits == "" then 0
    else 10 * NatOf(digits[..|digits| - 1]) + DigitOf(digits[|digits| - 1])
  }

  function IntOf(s: string): int
    requires Number(s)
  {
    if "-" <= s then 0 - NatOf(s[1..]) else NatOf(s)
  }

  lemma {:induction false} LeadingZero(digits: string)
    requires digits != "" && digits[0] == '0' && forall i :: 0 <= i < |digits| ==> IsDigit(digits[i])
    ensures NatOf(digits) == NatOf(digits[1..])
  {
    if |digits| > 1 {
      var front := digits[..|digits| - 1];
      LeadingZero(front);
      assert digits[1..][..|digits| - 2] == front[1..];
    }
  }

  lemma {:induction false} WithoutZeros(digits: string)
    requires forall i :: 0 <= i < |digits| ==> IsDigit(digits[i])
    ensures var m := LTrim(digits, IsZero);
            && (forall i :: 0 <= i < |m| ==> IsDigit(m[i])) && NatOf(m) == NatOf(digits) && (m != "" ==> m[0] != '0')
  {
    if digits != "" && digits[0] == '0' {
      LeadingZero(digits);
      WithoutZeros(digits[1..]);
    }
  }

  /** Digits without leading zeros are the text of their number. */
  lemma {:induction false} DigitsOf(digits: string)
    requires digits != "" && digits[0] != '0' && forall i :: 0 <= i < |digits| ==> IsDigit(digits[i])
    ensures NatOf(digits) > 0 && Digits(NatOf(digits)) == digits
  {
    var front, last := digits[..|digits| - 1], digits[|digits| - 1];
    assert digits == front + [last];
    assert "0123456789"[last as int - '0' as int] == last;
    if front != "" {
      DigitsOf(front);
    }
  }

  lemma NumberShape(s: string)
    requires Number(s)
    ensures LooksNumeric(s) && s != "" && s[0] != '@'
  {
    var digits := if "-" <= s then s[1..] else s;
    assert LTrim(digits, IsDash) == digits;
    assert "-" <= s <==> s != "" && s[0] == '-';
    assert LTrim(s, IsDash) == digits;
  }

  lemma CanonicalText(s: string)
    requires Number(s)
    ensures CanonicalInt(s) == Some(IntText(IntOf(s)))
  {
    var digits := if "-" <= s then s[1..] else s;
    WithoutZeros(digits);
    var m := LTrim(digits, IsZero);
    hide LTrim, NatOf, Digits;
    if m != "" {
      DigitsOf(m);
    } else {
      ZeroText();
    }
  }

  lemma ZeroText()
    ensures NatOf("") == 0 && Digits(0) == "0"
  {
  }

  /** A number's key is the text of its value. */
  lemma NumberText(s: string)
    requires Number(s)
    ensures PathKey(s) == Some(IntText(IntOf(s))) && PathKey("@" + s) == Some(IntText(IntOf(s)))
  {
    NumberShape(s);
    CanonicalText(s);
    hide LooksNumeric, CanonicalInt, IntText, IntOf, Number;
    assert ("@" + s)[1..] == s;
    assert !("@" <= s);
  }

  lemma DigitChar(k: nat)
    requires k < 10
    ensures IsDigit("0123456789"[k]) && DigitOf("0123456789"[k]) == k
  {
  }

  lemma NatOfAppend(front: string, c: char)
    requires IsDigit(c) && forall i :: 0 <= i < |front| ==> IsDigit(front[i])
    ensures forall i :: 0 <= i < |front + [c]| ==> IsDigit((front + [c])[i])
    ensures NatOf(front + [c]) == 10 * NatOf(front) + DigitOf(c)
  {
    assert (front + [c])[..|front|] == front;
  }

  lemma {:induction false} NatOfDigits(n: nat)
    ensures forall i :: 0 <= i < |Digits(n)| ==> IsDigit(Digits(n)[i])
    ensures NatOf(Digits(n)) == n
  {
    hide NatOf, IsDigit, DigitOf;
    DigitChar(n % 10);
    NoDigits();
    if n >= 10 {
      NatOfDigits(n / 10);
    }
    NatOfAppend(if n < 10 then "" else Digits(n / 10), "0123456789"[n % 10]);
  }

  lemma NoDigits()
    ensures NatOf("") == 0
  {
  }

  /** Different numbers have different texts. */
  lemma IntTextInjective(m: int, n: int)
    requires IntText(m) == IntText(n)
    ensures m == n
  {
    NatOfDigits(if m < 0 then -m else m);
    NatOfDigits(if n < 0 then -n else n);
    assert m < 0 ==> IntText(m)[0] == '-' && IntText(m)[1..] == Digits(-m);
    assert n < 0 ==> IntText(n)[0] == '-' && IntText(n)[1..] == Digits(-n);
  }

  // ---------------------------------------------------------------- keys

  /** The chat a name or a number stands for. */
  function KeyText(word: string): string
    requires Name(word) || Number(word)
  {
    if Name(word) then word else IntText(IntOf(word))
  }

  lemma NameText(word: string)
    requires Name(word)
    ensures PathKey(word) == Some(word) && PathKey("@" + word) == Some(word)
  {
    assert LTrim(word, IsDash) == word && !LooksNumeric(word);
    assert ("@" + word)[1..] == word;
    assert !("@" <= word);
  }

  lemma PathOf(scheme: string, at: string, word: string, tail: string)
    requires scheme in {"", "https://", "http://"} && at in {"", "@"}
    requires (Name(word) || Number(word)) && Tail(tail)
    ensures KeyPath(scheme + (if scheme == "" then "" else "t.me/") + at + word + tail) == at + word
  {
    hide Name, Number, Tail, Trim, Before, Has, After;
    var rest := at + word + tail;
    WordPath(at, word, tail);
    if scheme == "" {
      NoScheme(at, word, tail);
      assert scheme + "" + at + word + tail == rest;
    } else {
      LinkedPath(scheme, rest);
      assert scheme + "t.me/" + at + word + tail == scheme + "t.me/" + rest;
    }
  }

  lemma LinkedPath(scheme: string, rest: string)
    requires scheme in {"https://", "http://"}
    ensures KeyPath(scheme + "t.me/" + rest) == Trim(Before(rest, '?'), IsSlash)
  {
    hide Trim, Before, Has, After;
    LinkPath(scheme, rest);
    SchemeHasHost(scheme + "t.me/" + rest);
  }

  lemma LeadPath(lead: string, word: string, tail: string)
    requires Lead(lead) && (Name(word) || Number(word)) && Tail(tail)
    ensures KeyPath(lead + word + tail) in {word, "@" + word}
  {
    hide Name, Number, Tail, KeyPath;
    var at := if lead in {"@", "https://t.me/@", "http://t.me/@"} then "@" else "";
    var secure := lead in {"https://t.me/", "https://t.me/@"};
    var scheme := if lead in {"", "@"} then "" else if secure then "https://" else "http://";
    var host := if scheme == "" then "" else "t.me/";
    assert lead == scheme + host + at;
    PathOf(scheme, at, word, tail);
    assert scheme + host + at + word + tail == lead + word + tail;
    assert "" + word == word;
  }

  /** Nothing around the spelling is blank. */
  lemma WordEnds(lead: string, word: string, tail: string)
    requires Lead(lead) && (Name(word) || Number(word)) && Tail(tail)
    ensures var text := lead + word + tail; text != "" && !IsSpace(text[0]) && !IsSpace(text[|text| - 1])
  {
    var text := lead + word + tail;
    assert text[0] == if lead == "" then word[0] else lead[0];
    assert text[|text| - 1] == if tail == "" then word[|word| - 1] else tail[|tail| - 1];
  }

  /**
   * Main result on keys: however a chat is spelled, with or without an `@`, as a link, with slashes or a query behind
   * it, and blanks around it, its key is its name, or the text of its number.
   */
  lemma SpellingKey(a: string, lead: string, word: string, tail: string, b: string)
    requires Blank(a) && Blank(b) && Lead(lead) && (Name(word) || Number(word)) && Tail(tail)
    ensures Key(a + (lead + word + tail) + b) == Some(KeyText(word))
  {
    WordEnds(lead, word, tail);
    StripBlanks(a, lead + word + tail, b);
    LeadPath(lead, word, tail);
    if Name(word) {
      NameText(word);
    } else {
      NumberText(word);
    }
    hide Name, Number, Tail, Lead, Blank, KeyPath, PathKey, IntText, IntOf, Strip;
  }

  lemma NumbersAreNoNames(word: string, n: int)
    requires Name(word)
    ensures word != IntText(n)
  {
    NatOfDigits(if n < 0 then -n else n);
  }

  /** Two spellings share a key exactly when they spell the same name, or numbers of the same value. */
  lemma SameKeyIff(a: string, lead: string, word: string, tail: string, b: string,
      a': string, lead': string, word': string, tail': string, b': string)
    requires Blank(a) && Blank(b) && Lead(lead) && (Name(word) || Number(word)) && Tail(tail)
    requires Blank(a') && Blank(b') && Lead(lead') && (Name(word') || Number(word')) && Tail(tail')
    ensures Key(a + (lead + word + tail) + b) == Key(a' + (lead' + word' + tail') + b') <==>
              (Name(word) && word == word') || (Number(word) && Number(word') && IntOf(word) == IntOf(word'))
  {
    hide Key, Tail, Lead, Blank, IntText, IntOf;
    SpellingKey(a, lead, word, tail, b);
    SpellingKey(a', lead', word', tail', b');
    if Name(word) && Number(word') {
      NumbersAreNoNames(word, IntOf(word'));
    }
    if Name(word') && Number(word) {
      NumbersAreNoNames(word', IntOf(word));
    }
    if Number(word) && Number(word') && IntText(IntOf(word)) == IntText(IntOf(word')) {
      IntTextInjective(IntOf(word), IntOf(word'));
    }
  }

  lemma TwoDashes(digits: string)
    requires IsDigits(digits)
    ensures LooksNumeric("--" + digits) && CanonicalInt("--" + digits).None?
  {
    var text := "--" + digits;
    assert LTrim(digits, IsDash) == digits;
    assert ("-" + digits)[1..] == digits && text[1..] == "-" + digits;
    assert LTrim("-" + digits, IsDash) == digits;
  }

  lemma TwoDashesPath(digits: string)
    requires IsDigits(digits)
    ensures Strip("--" + digits) == "--" + digits && KeyPath("--" + digits) == "--" + digits
  {
    var text := "--" + digits;
    assert text[0] == '-' && text[|text| - 1] == digits[|digits| - 1];
    assert '?' !in text && Trimmed(text, IsSpace) && Trimmed(text, IsSlash);
    hide IsDigits, IsSpace, IsSlash;
    PlainPath(text);
  }

  /** A text that starts no link and has nothing to cut is its own path. */
  lemma PlainPath(text: string)
    requires text != "" && text[0] != 'h' && '?' !in text && Trimmed(text, IsSpace) && Trimmed(text, IsSlash)
    ensures Strip(text) == text && KeyPath(text) == text
  {
    hide IsSpace, IsSlash;
    assert "https://t.me/"[0] == 'h' == "http://t.me/"[0];
    NotPrefix("https://t.me/", text, 0);
    NotPrefix("http://t.me/", text, 0);
    TrimIsTrimmed(text, IsSpace);
    BeforeAt(text, '?', |text|);
    assert text[..|text|] == text;
    TrimIsTrimmed(text, IsSlash);
  }

  /** Blank text, and a number behind two minus signs, have no key: the source raises. */
  lemma RaisingKeys(blank: string, digits: string)
    requires Blank(blank) && IsDigits(digits)
    ensures Key(blank).None? && Key("--" + digits).None?
  {
    RTrimAll("", blank, IsSpace);
    assert "" + blank == blank;
    TwoDashes(digits);
    TwoDashesPath(digits);
    assert !("@" <= "--" + digits);
    hide KeyPath, CanonicalInt, LooksNumeric;
  }

  /** A link without its scheme is cut nowhere: it is a chat of its own, other than the one it links to. */
  lemma BareHostKey(name: string)
    requires Name(name)
    ensures Key("t.me/" + name) == Some("t.me/" + name) && Key("t.me/" + name) != Key("https://t.me/" + name)
  {
    var text := "t.me/" + name;
    BareHostPath(name);
    assert text[0] == 't';
    assert LTrim(text, IsDash) == text && !LooksNumeric(text);
    hide KeyPath, Strip;
    assert SlashesUpTo("", 0);
    SpellingKey("", "https://t.me/", name, "", "");
    assert "" + ("https://t.me/" + name + "") + "" == "https://t.me/" + name;
  }

  lemma BareHostPath(name: string)
    requires Name(name)
    ensures var text := "t.me/" + name; Strip(text) == text && KeyPath(text) == text
  {
    var text := "t.me/" + name;
    assert text[0] == 't' && text[|text| - 1] == name[|name| - 1];
    assert '?' !in text && Trimmed(text, IsSpace) && Trimmed(text, IsSlash);
    hide Name, IsSpace, IsSlash;
    PlainPath(text);
  }

  // ---------------------------------------------------------------- how a reference is stored

  /** What makes a text a link or an invite. */
  predicate HasMark(text: string) {
    "+" <= text || Has(text, "joinchat/") || Has(text, "/+") || Has(text, "t.me/") || Has(text, "telegram.me/")
  }

  lemma NoMark(at: string, word: string)
    requires at in {"", "@"} && (Name(word) || Number(word))
    ensures !HasMark(at + word)
  {
    var text := at + word;
    assert forall i :: 0 <= i < |text| ==> text[i] != '/' && text[i] != '+' && text[i] != '.';
    assert '/' !in text && '+' !in text && '.' !in text;
    assert "joinchat/"[8] == '/' && "/+"[0] == '/' && "t.me/"[4] == '/' && "telegram.me/"[11] == '/';
    CharOf(text, "joinchat/", 8);
    CharOf(text, "/+", 0);
    CharOf(text, "t.me/", 4);
    CharOf(text, "telegram.me/", 11);
    assert "+"[0] == '+';
    NotPrefix("+", text, 0);
  }

  /** A name, and a number without a minus sign, is stored behind an `@`; a negative number as it is. */
  lemma StoredWord(a: string, at: string, word: string, b: string)
    requires Blank(a) && Blank(b) && at in {"", "@"} && (Name(word) || Number(word))
    ensures var stored := if at == "" && "-" <= word then word else "@" + word;
            Shown(a + (at + word) + b) == stored && DisplayRef(a + (at + word) + b) == stored
  {
    hide Has, Number, Name, Strip, Blank, IsSpace, LooksNumeric, DisplayRef, Shown, HasMark;
    var text := at + word;
    WordShape(at, word);
    StripBlanks(a, text, b);
    StripBlanks("", text, "");
    assert "" + text + "" == text;
    NoMark(at, word);
    WordDisplay(at, word);
    StoredDisplay(a + text + b, text);
  }

  /** Unmarked text is stored as it is displayed. */
  lemma StoredDisplay(value: string, text: string)
    requires Strip(value) == text == Strip(text) && text != "" && !HasMark(text)
    ensures Shown(value) == DisplayRef(text) == DisplayRef(value)
  {
    hide Has, Strip, LooksNumeric;
  }

  lemma WordDisplay(at: string, word: string)
    requires at in {"", "@"} && (Name(word) || Number(word)) && Strip(at + word) == at + word && !HasMark(at + word)
    ensures DisplayRef(at + word) == if at == "" && "-" <= word then word else "@" + word
  {
    WordShape(at, word);
    if Number(word) {
      NumberShape(word);
    }
    hide Has, Number, Name, LooksNumeric, Strip, IsSpace;
  }

  lemma WordShape(at: string, word: string)
    requires at in {"", "@"} && (Name(word) || Number(word))
    ensures var text := at + word;
            && text != "" && !IsSpace(text[0]) && !IsSpace(text[|text| - 1])
            && ("@" <= text <==> at == "@") && ("-" <= text ==> at == "" && Number(word))
            && (at == "" ==> text == word) && (at == "@" ==> text == "@" + word)
  {
    WordFacts(word);
    hide Name, Number, IsSpace;
    var text := at + word;
    assert text[0] == if at == "" then word[0] else '@';
    assert text[|text| - 1] == word[|word| - 1];
    assert at == "" ==> text == word;
    AtIsNoSpace();
  }

  lemma AtIsNoSpace()
    ensures !IsSpace('@')
  {
  }

  lemma WordFacts(word: string)
    requires Name(word) || Number(word)
    ensures word != "" && word[0] != '@' && !IsSpace(word[0]) && !IsSpace(word[|word| - 1])
    ensures "-" <= word ==> Number(word)
  {
  }

  /** A text that mentions a Telegram host is stored as typed. */
  lemma StoredLink(a: string, text: string, b: string, host: string, n: nat)
    requires Blank(a) && Blank(b) && text != "" && !IsSpace(text[0]) && !IsSpace(text[|text| - 1])
    requires host in {"t.me/", "telegram.me/"} && OccursAt(text, host, n)
    ensures Shown(a + text + b) == text
    ensures host == "t.me/" ==> DisplayRef(a + text + b) == text
  {
    StripBlanks(a, text, b);
    StripBlanks("", text, "");
    assert "" + text + "" == text;
    HasAt(text, host, n);
    hide Has, InviteHash, Strip, LooksNumeric;
  }

  /** What follows the marker of an invite: the hash, then perhaps slashes and a query. */
  predicate Hash(s: string) {
    s != "" && forall i :: 0 <= i < |s| ==> IsLetter(s[i]) || IsDigit(s[i]) || s[i] in {'_', '-'}
  }

  lemma AfterLead(lead: string, marker: string, rest: string)
    requires forall j: nat :: j < |lead| ==> !OccursAt(lead + marker + rest, marker, j)
    ensures After(lead + marker + rest, marker) == Some(rest)
  {
    var text := lead + marker + rest;
    assert text[|lead|..|lead| + |marker|] == marker && text[|lead| + |marker|..] == rest;
    AfterAt(text, marker, |lead|);
  }

  /** The hash of an invite link of the old form. */
  lemma JoinchatHash(lead: string, hash: string, tail: string)
    requires lead in {"", "t.me/", "https://t.me/", "https://telegram.me/"} && Hash(hash) && Tail(tail)
    ensures InviteHash(lead + "joinchat/" + (hash + tail)) == Some(hash)
  {
    var marker := "joinchat/";
    var text := lead + marker + (hash + tail);
    assert marker[0] == 'j';
    forall j: nat | j < |lead| ensures !OccursAt(text, marker, j) {
      assert lead[j] != 'j' && text[j] == lead[j];
      NotAt(text, marker, j, 0);
    }
    AfterLead(lead, marker, hash + tail);
    HashOf(hash, tail);
    JoinchatTrimmed(lead, hash, tail);
    hide After, HashIn, Strip, Tail, Hash, OccursAt;
  }

  lemma JoinchatTrimmed(lead: string, hash: string, tail: string)
    requires lead in {"", "t.me/", "https://t.me/", "https://telegram.me/"} && Hash(hash) && Tail(tail)
    ensures var text := lead + "joinchat/" + (hash + tail); Strip(text) == text
  {
    var text := lead + "joinchat/" + (hash + tail);
    assert text[0] == if lead == "" then 'j' else lead[0];
    assert text[|text| - 1] == if tail == "" then hash[|hash| - 1] else tail[|tail| - 1];
    TrimIsTrimmed(text, IsSpace);
  }

  lemma HashOf(hash: string, tail: string)
    requires Hash(hash) && Tail(tail)
    ensures HashIn(hash + tail) == hash
  {
    var n: nat :| SlashesUpTo(tail, n);
    BeforeAt(hash + tail, '?', |hash| + n);
    assert (hash + tail)[..|hash| + n] == hash + tail[..n];
    RTrimAll(hash, tail[..n], IsSlash);
  }

  /** The hash of an invite link of the new form. */
  lemma PlusHash(lead: string, hash: string)
    requires lead in {"t.me", "https://t.me", "https://telegram.me"} && Hash(hash)
    ensures InviteHash(lead + "/+" + hash) == Some(hash)
  {
    var marker := "/+";
    var text := lead + marker + hash;
    assert marker[0] == '/' && marker[1] == '+';
    forall j: nat | j < |lead| ensures !OccursAt(text, marker, j) {
      assert text[j] == lead[j] && (j + 1 < |lead| ==> text[j + 1] == lead[j + 1]);
      NotAt(text, marker, j, if lead[j] == '/' then 1 else 0);
    }
    AfterLead(lead, marker, hash);
    assert hash + "" == hash && SlashesUpTo("", 0);
    HashOf(hash, "");
    PlusShape(lead, hash);
    hide After, HashIn, Strip, Tail, Hash, OccursAt;
  }

  lemma PlusShape(lead: string, hash: string)
    requires lead in {"t.me", "https://t.me", "https://telegram.me"} && Hash(hash)
    ensures var text := lead + "/+" + hash; Strip(text) == text && !Has(text, "joinchat/")
  {
    var text, chat := lead + "/+" + hash, "joinchat/";
    assert chat[8] == '/' && chat[7] == 't';
    assert text[|text| - 1] == hash[|hash| - 1] && text[0] == lead[0];
    TrimIsTrimmed(text, IsSpace);
    PlusSlashes(lead, hash);
    hide Strip, Has, IsSpace, Hash;
    forall j: nat | j < |text| ensures !OccursAt(text, chat, j) {
      NotAt(text, chat, j, if j + 8 < |text| && text[j + 8] == '/' then 7 else 8);
    }
    NowhereHas(text, chat);
  }

  lemma PlusSlashes(lead: string, hash: string)
    requires lead in {"t.me", "https://t.me", "https://telegram.me"} && Hash(hash)
    ensures var text := lead + "/+" + hash; forall k :: 0 < k < |text| && text[k] == '/' ==> text[k - 1] != 't'
  {
    var text := lead + "/+" + hash;
    assert text[|lead|] == '/' && text[|lead| + 1] == '+' && text[|lead| - 1] == 'e';
    assert forall k :: 0 <= k < |lead| ==> text[k] == lead[k];
  }

  lemma {:induction false} NowhereHas(text: string, sub: string)
    requires sub != "" && forall j: nat :: j < |text| ==> !OccursAt(text, sub, j)
    ensures !Has(text, sub)
  {
    if text != "" {
      assert !OccursAt(text, sub, 0) && !(sub <= text);
      forall j: nat | j < |text| - 1 ensures !OccursAt(text[1..], sub, j) {
        OccursLater(text, sub, j);
        assert !OccursAt(text, sub, j + 1);
      }
      NowhereHas(text[1..], sub);
    }
  }

  /** The hash of an invite given by its hash alone. */
  lemma BareHash(hash: string)
    requires Hash(hash)
    ensures InviteHash("+" + hash) == Some(hash)
  {
    var text := "+" + hash;
    assert text[|text| - 1] == hash[|hash| - 1] && text[0] == '+';
    TrimIsTrimmed(text, IsSpace);
    assert '/' !in text && "joinchat/"[8] == '/' && "/+"[0] == '/';
    CharOf(text, "joinchat/", 8);
    CharOf(text, "/+", 0);
  }
}
