/** Textual chat references: how they are displayed, and the key two spellings of one chat share. */
module Refs {
  import opened Common

  // ---------------------------------------------------------------- text helpers

  function LTrim(s: string, p: char -> bool): string {
    if s != "" && p(s[0]) then LTrim(s[1..], p) else s
  }

  function RTrim(s: string, p: char -> bool): string {
    if s != "" && p(s[|s| - 1]) then RTrim(s[..|s| - 1], p) else s
  }

  function Trim(s: string, p: char -> bool): string {
    LTrim(RTrim(s, p), p)
  }

  /** What follows the first occurrence of `sub`: `s.split(sub, 1)[1]`. */
  function After(s: string, sub: string): Option<string> {
    if sub <= s then Some(s[|sub|..])
    else if s == "" then None
    else After(s[1..], sub)
  }

  predicate Has(s: string, sub: string) {
    After(s, sub).Some?
  }

  /** `s.split(c)[0]`. */
  function Before(s: string, c: char): string {
    if s == "" || s[0] == c then "" else [s[0]] + Before(s[1..], c)
  }

  /** Characters `str.strip()` removes. */
  predicate IsSpace(c: char) {
    var n := c as int;
    9 <= n <= 13 || 28 <= n <= 32 || n == 0x85 || n == 0xA0 || n == 0x1680 ||
    0x2000 <= n <= 0x200A || n == 0x2028 || n == 0x2029 || n == 0x202F || n == 0x205F || n == 0x3000
  }

  predicate IsSlash(c: char) { c == '/' }

  predicate IsDash(c: char) { c == '-' }

  predicate IsZero(c: char) { c == '0' }

  function Strip(s: string): string {
    Trim(s, IsSpace)
  }

  /** `s.isdigit()`, for ASCII digits. */
  predicate IsDigits(s: string) {
    s != "" && forall i :: 0 <= i < |s| ==> '0' <= s[i] <= '9'
  }

  /** `text.lstrip("-").isdigit()`. */
  predicate LooksNumeric(s: string) {
    IsDigits(LTrim(s, IsDash))
  }

  /** `str(n)` */
  function IntText(n: int): string {
    if n < 0 then "-" + Digits(-n) else Digits(n)
  }

  function Digits(n: nat): string {
    (if n < 10 then "" else Digits(n / 10)) + ["0123456789"[n % 10]]
  }

  // ---------------------------------------------------------------- references

  function HashIn(tail: string): string {
    Trim(Before(tail, '?'), IsSlash)
  }

  /** The invite hash of a private link; `Some("")` when the marker is there but nothing follows. */
  function InviteHash(value: string): Option<string> {
    var text := Strip(value);
    if Has(text, "joinchat/") then Some(HashIn(After(text, "joinchat/").value))
    else if Has(text, "/+") then Some(HashIn(After(text, "/+").value))
    else if "+" <= text then Some(text[1..])
    else None
  }

  function DisplayRef(value: string): string {
    var text := Strip(value);
    if text == "" then text
    else if "@" <= text || LooksNumeric(text) || Has(text, "t.me/") then
      if "@" <= text || Has(text, "t.me/") || "-" <= text then text else "@" + text
    else "@" + text
  }

  /** Links and invites are kept as typed. */
  predicate IsLink(text: string) {
    (InviteHash(text).Some? && InviteHash(text).value != "") || Has(text, "t.me/") || Has(text, "telegram.me/")
  }

  /** The spelling `normalize_group_list` stores for one item; "" when the item is dropped. */
  function Shown(item: string): string {
    var text := Strip(item);
    if text == "" then "" else if IsLink(text) then text else DisplayRef(text)
  }

  /** `str(int(text))`; `None` when `int` raises. */
  function CanonicalInt(text: string): Option<string> {
    var negative := "-" <= text;
    var digits := if negative then text[1..] else text;
    if !IsDigits(digits) then None
    else
      var magnitude := LTrim(digits, IsZero);
      Some(if magnitude == "" then "0" else if negative then "-" + magnitude else magnitude)
  }

  /** Key of a bare path, once links and query strings are cut off. */
  function PathKey(path: string): Option<string> {
    var name := if "@" <= path then path[1..] else path;
    if LooksNumeric(name) then CanonicalInt(name) else Some(name)
  }

  /** The part of a reference its key is computed from, before it is read as a name or a number. */
  function KeyPath(text: string): string {
    var bare := if ("https://t.me/" <= text || "http://t.me/" <= text) && Has(text, "t.me/")
                then After(text, "t.me/").value else text;
    Trim(Before(bare, '?'), IsSlash)
  }

  /** `group_norm_key`; `None` where `normalize_ref` raises. */
  function Key(value: string): Option<string> {
    var text := Strip(value);
    if text == "" then None else PathKey(KeyPath(text))
  }

  // ---------------------------------------------------------------- laws of the text helpers

  lemma {:induction false} LTrimFacts(s: string, p: char -> bool)
    ensures var r := LTrim(s, p);
            && |r| <= |s| && r == s[|s| - |r|..]
            && (r != "" ==> !p(r[0]))
            && (s != "" && p(s[0]) ==> |r| < |s|)
  {
    if s != "" && p(s[0]) { LTrimFacts(s[1..], p); }
  }

  lemma {:induction false} RTrimFacts(s: string, p: char -> bool)
    ensures RTrim(s, p) <= s
    ensures RTrim(s, p) != "" ==> !p(RTrim(s, p)[|RTrim(s, p)| - 1])
  {
    if s != "" && p(s[|s| - 1]) { RTrimFacts(s[..|s| - 1], p); }
  }

  /** Neither end would be trimmed. */
  predicate Trimmed(s: string, p: char -> bool) {
    s == "" || (!p(s[0]) && !p(s[|s| - 1]))
  }

  lemma TrimIsTrimmed(s: string, p: char -> bool)
    ensures Trimmed(Trim(s, p), p)
    ensures Trimmed(s, p) ==> Trim(s, p) == s
  {
    RTrimFacts(s, p);
    LTrimFacts(RTrim(s, p), p);
  }

  lemma {:induction false} RTrimPrepend(c: char, s: string, p: char -> bool)
    requires !p(c)
    ensures RTrim([c] + s, p) == [c] + RTrim(s, p)
  {
    var t := [c] + s;
    if s != "" && p(s[|s| - 1]) {
      assert t[..|t| - 1] == [c] + s[..|s| - 1];
      RTrimPrepend(c, s[..|s| - 1], p);
    }
  }

  lemma {:induction false} HasAt(s: string, sub: string, n: nat)
    requires n + |sub| <= |s| && s[n..n + |sub|] == sub
    ensures Has(s, sub)
  {
    if n == 0 {
      assert sub <= s;
    } else if !(sub <= s) {
      assert s[1..][n - 1..n - 1 + |sub|] == sub;
      HasAt(s[1..], sub, n - 1);
    }
  }

  lemma {:induction false} BeforeIsPrefix(s: string, c: char)
    ensures Before(s, c) <= s
  {
    if s != "" && s[0] != c { BeforeIsPrefix(s[1..], c); }
  }

  lemma BeforePrepend(c: char, s: string, q: char)
    requires c != q
    ensures Before([c] + s, q) == [c] + Before(s, q)
  {
    assert ([c] + s)[1..] == s;
  }

  // ---------------------------------------------------------------- laws of references

  lemma StripIdempotent(s: string)
    ensures Strip(Strip(s)) == Strip(s)
  {
    TrimIsTrimmed(s, IsSpace);
    TrimIsTrimmed(Strip(s), IsSpace);
  }

  /** Putting `@` in front of stripped text leaves it stripped. */
  lemma StripAt(text: string)
    requires text != "" && Strip(text) == text
    ensures Strip("@" + text) == "@" + text
  {
    var at := "@" + text;
    TrimIsTrimmed(text, IsSpace);
    assert at[0] == '@' && at[|at| - 1] == text[|text| - 1];
    TrimIsTrimmed(at, IsSpace);
  }

  /** The display form is the stripped text, or the stripped text behind an `@`. */
  lemma DisplayShape(value: string)
    ensures var text := Strip(value);
            DisplayRef(value) == text || (text != "" && DisplayRef(value) == "@" + text)
  {
  }

  lemma DisplayTrimmed(value: string)
    ensures Strip(DisplayRef(value)) == DisplayRef(value)
  {
    DisplayShape(value);
    StripIdempotent(value);
    if Strip(value) != "" {
      StripAt(Strip(value));
    }
  }

  /** A stored source is displayed as itself. */
  lemma DisplayIdempotent(value: string)
    ensures DisplayRef(DisplayRef(value)) == DisplayRef(value)
  {
    DisplayTrimmed(value);
  }

  lemma ShownFixed(o: string)
    requires Strip(o) == o && (IsLink(o) || DisplayRef(o) == o)
    ensures Shown(o) == o
  {
  }

  /** A stored group is stored as itself: normalising twice is normalising once. */
  lemma ShownIdempotent(item: string)
    ensures Shown(Shown(item)) == Shown(item)
  {
    var text := Strip(item);
    StripIdempotent(item);
    if text != "" {
      if IsLink(text) {
        ShownFixed(text);
      } else {
        DisplayTrimmed(text);
        DisplayIdempotent(text);
        ShownFixed(DisplayRef(text));
      }
    }
  }

  /** A reference with a key is stored as something. */
  lemma KeyedShown(item: string)
    requires Key(item).Some?
    ensures Shown(item) != ""
  {
    StripIdempotent(item);
    DisplayShape(Strip(item));
  }

  // ---------------------------------------------------------------- does storing keep the key?

  /** A reference typed with a leading slash, such as `/name`, that is not a link. */
  predicate SlashRooted(value: string) {
    var text := Strip(value);
    !IsLink(text) && "/" <= RTrim(Before(text, '?'), IsSlash)
  }

  /** Trimming slashes stops at the display form's `@`, so leading slashes behind it survive. */
  lemma TrimSlashesAt(s: string)
    ensures Trim("@" + s, IsSlash) == "@" + RTrim(s, IsSlash)
  {
    RTrimPrepend('@', s, IsSlash);
    var path := "@" + RTrim(s, IsSlash);
    assert path[0] == '@';
  }

  lemma KeyPathAt(text: string)
    requires text != ""
    ensures KeyPath("@" + text) == "@" + RTrim(Before(text, '?'), IsSlash)
  {
    assert ("@" + text)[0] == '@' && "https://t.me/"[0] == 'h' && "http://t.me/"[0] == 'h';
    BeforePrepend('@', text, '?');
    TrimSlashesAt(Before(text, '?'));
  }

  lemma SchemeHasHost(text: string)
    requires "https://t.me/" <= text || "http://t.me/" <= text
    ensures Has(text, "t.me/")
  {
    if "https://t.me/" <= text {
      assert "https://t.me/"[8..13] == "t.me/" == text[8..13];
      HasAt(text, "t.me/", 8);
    } else {
      assert "http://t.me/"[7..12] == "t.me/" == text[7..12];
      HasAt(text, "t.me/", 7);
    }
  }

  lemma KeyPathPlain(text: string)
    requires !Has(text, "t.me/")
    ensures KeyPath(text) == LTrim(RTrim(Before(text, '?'), IsSlash), IsSlash)
  {
    if "https://t.me/" <= text || "http://t.me/" <= text {
      SchemeHasHost(text);
    }
  }

  /** A number, or a shorter name, is not the slash-rooted path itself. */
  lemma PathKeyNotRooted(q: string, path: string)
    requires |q| < |path| && path[0] == '/'
    ensures PathKey(q) != Some(path)
  {
    var name := if "@" <= q then q[1..] else q;
    if LooksNumeric(name) {
      var digits := if "-" <= name then name[1..] else name;
      if IsDigits(digits) {
        var magnitude := LTrim(digits, IsZero);
        LTrimFacts(digits, IsZero);
        assert magnitude != "" ==> '0' <= magnitude[0] <= '9';
      }
    }
  }

  lemma PathKeyAtRooted(path: string)
    requires "/" <= path
    ensures PathKey("@" + path) == Some(path)
  {
    assert ("@" + path)[1..] == path;
    assert path[0] == '/';
    assert LTrim(path, IsDash) == path;
    assert !LooksNumeric(path);
  }

  lemma PathKeyAtPlain(path: string)
    requires !("@" <= path)
    ensures PathKey("@" + path) == PathKey(path)
  {
    assert ("@" + path)[1..] == path;
  }

  lemma DisplayedPath(text: string)
    requires Strip(text) == text && !Has(text, "t.me/")
    ensures var path := RTrim(Before(text, '?'), IsSlash);
            if DisplayRef(text) == text then !("/" <= path)
            else DisplayRef(text) == "@" + text && text != "" && !("@" <= path)
  {
    DisplayShape(text);
    BeforeIsPrefix(text, '?');
    RTrimFacts(Before(text, '?'), IsSlash);
    var path := RTrim(Before(text, '?'), IsSlash);
    assert path != "" ==> path[0] == text[0];
    assert "/" <= path ==> path[0] == '/';
    assert "@" <= path ==> path[0] == '@';
    if text != "" {
      assert "@" <= text <==> text[0] == '@';
      assert "-" <= text <==> text[0] == '-';
    }
  }

  lemma KeptBehindAt(text: string)
    requires Strip(text) == text && text != "" && !Has(text, "t.me/") && DisplayRef(text) == "@" + text
    requires !("@" <= RTrim(Before(text, '?'), IsSlash))
    ensures Key("@" + text) == Key(text) <==> !("/" <= RTrim(Before(text, '?'), IsSlash))
  {
    var path := RTrim(Before(text, '?'), IsSlash);
    StripAt(text);
    KeyPathAt(text);
    KeyPathPlain(text);
    if "/" <= path {
      PathKeyAtRooted(path);
      LTrimFacts(path, IsSlash);
      PathKeyNotRooted(LTrim(path, IsSlash), path);
    } else {
      PathKeyAtPlain(path);
      assert LTrim(path, IsSlash) == path;
    }
  }

  /**
   * Storing a reference keeps its key exactly when it is not slash-rooted: `/name` has key `name`
   * but is stored as `@/name`, whose key is `/name`.
   */
  lemma KeyKeptIffNotSlashRooted(value: string)
    ensures Key(Shown(value)) == Key(value) <==> !SlashRooted(value)
  {
    var text := Strip(value);
    StripIdempotent(value);
    assert Key(text) == Key(value);
    if !IsLink(text) {
      DisplayedPath(text);
      if text != "" && DisplayRef(text) != text {
        KeptBehindAt(text);
      }
    }
  }
}
