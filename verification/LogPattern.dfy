/**
 The tokens of a log pattern: literal text, and items %name and %name{format}. The error text put out for a brace that is
 never closed is text like any other; it has a constructor of its own so that it can be told from the pattern's text.
 */
module LogPattern {

  datatype Token = Literal(text: string) | Item(name: string, fmt: string) | Broken

  predicate IsAlpha(c: char) {
    'a' <= c <= 'z' || 'A' <= c <= 'Z'
  }

  predicate InName(c: char) {
    IsAlpha(c) || c == '}'
  }

  // ---- what the tokens are ----

  /** Where the name that begins at `n` ends. */
  function NameEnd(p: string, n: nat): (e: nat)
    requires n <= |p|
    ensures n <= e <= |p| && (e < |p| ==> !InName(p[e])) && forall k :: n <= k < e ==> InName(p[k])
    decreases |p| - n
  {
    if n == |p| || !InName(p[n]) then n else NameEnd(p, n + 1)
  }

  /** The first closing brace from `n` on, or the end. */
  function Close(p: string, n: nat): (c: nat)
    requires n <= |p|
    ensures n <= c <= |p| && (c < |p| ==> p[c] == '}') && forall k :: n <= k < c ==> p[k] != '}'
    decreases |p| - n
  {
    if n == |p| || p[n] == '}' then n else Close(p, n + 1)
  }

  /** A percent sign that does not stand before another one begins an item. */
  predicate ItemAt(p: string, i: nat) {
    i < |p| && p[i] == '%' && !(i + 1 < |p| && p[i + 1] == '%')
  }

  /** The item has a brace behind its name. */
  predicate Braced(p: string, i: nat)
    requires ItemAt(p, i)
  {
    var e := NameEnd(p, i + 1);
    e < |p| && p[e] == '{'
  }

  /** The brace is never closed. */
  predicate Unclosed(p: string, i: nat)
    requires ItemAt(p, i)
  {
    Braced(p, i) && Close(p, NameEnd(p, i + 1) + 1) == |p|
  }

  /** The braces hold nothing. */
  predicate Hollow(p: string, i: nat)
    requires ItemAt(p, i)
  {
    Braced(p, i) && Close(p, NameEnd(p, i + 1) + 1) == NameEnd(p, i + 1) + 1 < |p|
  }

  /** The item at `i` and where the text goes on. */
  function ItemOf(p: string, i: nat): (r: (Token, nat))
    requires ItemAt(p, i) && !Unclosed(p, i)
    ensures i < r.1 <= |p| && r.0.Item?
  {
    var e := NameEnd(p, i + 1);
    if Braced(p, i) then
      var c := Close(p, e + 1);
      (Item(p[i + 1..e], p[e + 1..c]), c + 1)
    else (Item(p[i + 1..e], ""), e)
  }

  function Flush(text: string): seq<Token> {
    if text == "" then [] else [Literal(text)]
  }

  /** The tokens from `i` on when `text` is still to be put out. An unclosed brace leaves the text where it is. */
  function Tokens(p: string, i: nat, text: string): seq<Token>
    requires i <= |p|
    decreases |p| - i
  {
    if i == |p| then Flush(text)
    else if !ItemAt(p, i) then Tokens(p, i + 1, text + [p[i]])
    else if Unclosed(p, i) then [Broken] + Tokens(p, i + 1, text)
    else Flush(text) + [ItemOf(p, i).0] + Tokens(p, ItemOf(p, i).1, "")
  }

  /**
   An item's name is all the letters and closing braces behind its sign; its format is what stands between a brace there
   and the first closing one, and without such a brace there is none.
   */
  lemma ItemExactly(p: string, i: nat)
    requires ItemAt(p, i) && !Unclosed(p, i)
    ensures var (t, next) := ItemOf(p, i);
      var e := i + 1 + |t.name|;
      && e <= |p| && t.name == p[i + 1..e]
      && (forall k :: i < k < e ==> 'a' <= p[k] <= 'z' || 'A' <= p[k] <= 'Z' || p[k] == '}')
      && (e < |p| ==> !('a' <= p[e] <= 'z' || 'A' <= p[e] <= 'Z' || p[e] == '}'))
      && (if e < |p| && p[e] == '{' then
            next == e + |t.fmt| + 2 <= |p| && t.fmt == p[e + 1..next - 1] && '}' !in t.fmt && p[next - 1] == '}'
          else t.fmt == "" && next == e)
  {
  }

  // ---- the tokens put together again ----

  function Shown(t: Token): string {
    match t
    case Literal(text) => text
    case Item(name, fmt) => "%" + name + (if fmt == "" then "" else "{" + fmt + "}")
    case Broken => "<<pattern_error>>"
  }

  function Rejoined(ts: seq<Token>): string {
    if ts == [] then "" else Shown(ts[0]) + Rejoined(ts[1..])
  }

  /** Items with an unclosed brace, and with empty braces, met from `i` on. */
  function Unfinished(p: string, i: nat): nat
    requires i <= |p|
    decreases |p| - i
  {
    if i == |p| then 0 else if !ItemAt(p, i) then Unfinished(p, i + 1)
    else if Unclosed(p, i) then 1 + Unfinished(p, i + 1) else Unfinished(p, ItemOf(p, i).1)
  }

  function Hollows(p: string, i: nat): nat
    requires i <= |p|
    decreases |p| - i
  {
    if i == |p| then 0 else if !ItemAt(p, i) || Unclosed(p, i) then Hollows(p, i + 1)
    else (if Hollow(p, i) then 1 else 0) + Hollows(p, ItemOf(p, i).1)
  }

  function Percents(s: string): nat {
    if s == "" then 0 else (if s[0] == '%' then 1 else 0) + Percents(s[1..])
  }

  lemma {:induction false} PercentsOfBoth(a: string, b: string)
    ensures Percents(a + b) == Percents(a) + Percents(b)
    decreases |a|
  {
    if a == "" {
      assert a + b == b;
    } else {
      PercentsOfBoth(a[1..], b);
      assert (a + b)[1..] == a[1..] + b;
    }
  }

  lemma {:induction false} RejoinedBoth(a: seq<Token>, b: seq<Token>)
    ensures Rejoined(a + b) == Rejoined(a) + Rejoined(b)
    decreases |a|
  {
    hide Shown;
    if a == [] {
      assert a + b == b;
    } else {
      RejoinedBoth(a[1..], b);
      assert (a + b)[1..] == a[1..] + b && (a + b)[0] == a[0];
      assert Shown(a[0]) + (Rejoined(a[1..]) + Rejoined(b)) == Shown(a[0]) + Rejoined(a[1..]) + Rejoined(b);
    }
  }

  lemma FlushShows(text: string)
    ensures Rejoined(Flush(text)) == text
  {
    assert text != "" ==> Flush(text)[1..] == [];
  }

  /** An item shows its own text, but for empty braces. */
  lemma ItemShows(p: string, i: nat)
    requires ItemAt(p, i) && !Unclosed(p, i)
    ensures Percents(Shown(ItemOf(p, i).0)) == Percents(p[i..ItemOf(p, i).1])
    ensures if Hollow(p, i) then |Shown(ItemOf(p, i).0)| + 2 == ItemOf(p, i).1 - i
            else Shown(ItemOf(p, i).0) == p[i..ItemOf(p, i).1]
  {
    hide Percents;
    var (t, next) := ItemOf(p, i);
    var e := NameEnd(p, i + 1);
    assert p[i..next] == "%" + p[i + 1..e] + p[e..next];
    if Hollow(p, i) {
      assert p[e..next] == "{}";
      assert Shown(t) == "%" + p[i + 1..e];
      PercentsOfBoth("%" + p[i + 1..e], "{}");
      NoPercentsIn("{}");
    } else if Braced(p, i) {
      assert p[e..next] == "{" + t.fmt + "}";
    }
  }

  lemma {:induction false} NoPercentsIn(s: string)
    requires '%' !in s
    ensures Percents(s) == 0
    decreases |s|
  {
    if s != "" { NoPercentsIn(s[1..]); }
  }

  lemma Steps(p: string, i: nat, j: nat)
    requires i <= j <= |p|
    ensures p[i..] == p[i..j] + p[j..] && Percents(p[i..]) == Percents(p[i..j]) + Percents(p[j..])
  {
    assert p[i..] == p[i..j] + p[j..];
    PercentsOfBoth(p[i..j], p[j..]);
  }

  lemma {:induction false} RejoinedTokens(p: string, i: nat, text: string)
    requires i <= |p|
    ensures var s := Rejoined(Tokens(p, i, text));
      && Percents(s) + Unfinished(p, i) == Percents(text) + Percents(p[i..])
      && (Unfinished(p, i) == 0 ==> |s| + 2 * Hollows(p, i) == |text| + |p| - i)
      && (Unfinished(p, i) == 0 && Hollows(p, i) == 0 ==> s == text + p[i..])
    decreases |p| - i
  {
    hide ItemAt, Unclosed, Hollow, ItemOf, Percents, Shown, Rejoined, Flush;
    if i == |p| {
      FlushShows(text);
      NoPercents();
      assert p[i..] == "";
    } else if !ItemAt(p, i) {
      Steps(p, i, i + 1);
      assert p[i..i + 1] == [p[i]];
      RejoinedTokens(p, i + 1, text + [p[i]]);
      PercentsOfBoth(text, [p[i]]);
      assert text + [p[i]] + p[i + 1..] == text + p[i..];
    } else if Unclosed(p, i) {
      Steps(p, i, i + 1);
      RejoinedTokens(p, i + 1, text);
      BrokenShows(Tokens(p, i + 1, text));
      PercentAt(p, i);
    } else {
      var (t, next) := ItemOf(p, i);
      Steps(p, i, next);
      ItemShows(p, i);
      RejoinedTokens(p, next, "");
      NoPercents();
      ItemBetween(text, t, Tokens(p, next, ""));
    }
  }

  lemma NoPercents()
    ensures Percents("") == 0
  {
  }

  lemma PercentAt(p: string, i: nat)
    requires ItemAt(p, i)
    ensures Percents(p[i..i + 1]) == 1
  {
    assert p[i..i + 1] == ['%'];
  }

  lemma BrokenShows(ts: seq<Token>)
    ensures Percents(Rejoined([Broken] + ts)) == Percents(Rejoined(ts))
  {
    hide Percents;
    var e := "<<pattern_error>>";
    assert ([Broken] + ts)[1..] == ts;
    PercentsOfBoth(e, Rejoined(ts));
    NoPercentsIn(e);
  }

  lemma OneShows(t: Token)
    ensures Rejoined([t]) == Shown(t)
  {
    assert [t][1..] == [];
  }

  lemma ItemBetween(text: string, t: Token, ts: seq<Token>)
    ensures Rejoined(Flush(text) + [t] + ts) == text + Shown(t) + Rejoined(ts)
    ensures Percents(text + Shown(t) + Rejoined(ts)) == Percents(text) + Percents(Shown(t)) + Percents(Rejoined(ts))
  {
    hide Flush, Rejoined, Percents, Shown;
    RejoinedBoth(Flush(text) + [t], ts);
    RejoinedBoth(Flush(text), [t]);
    FlushShows(text);
    OneShows(t);
    PercentsOfBoth(text + Shown(t), Rejoined(ts));
    PercentsOfBoth(text, Shown(t));
  }

  /** Nothing of the pattern is lost exactly when no item has an unclosed brace or empty braces. */
  lemma LosesNothing(p: string)
    ensures Rejoined(Tokens(p, 0, "")) == p <==> Unfinished(p, 0) == 0 && Hollows(p, 0) == 0
  {
    RejoinedTokens(p, 0, "");
    NoPercents();
    assert p[0..] == p && "" + p == p;
  }

  /** That is so for every pattern without "{}" in which a closing brace follows every opening one. */
  lemma {:induction false} PlainPatterns(p: string, i: nat)
    requires i <= |p| && forall k :: 0 <= k < |p| && p[k] == '{' ==> exists c :: k + 1 < c < |p| && p[c] == '}'
    requires forall k :: 0 <= k < |p| - 1 && p[k] == '{' ==> p[k + 1] != '}'
    ensures Unfinished(p, i) == 0 && Hollows(p, i) == 0
    decreases |p| - i
  {
    if i == |p| {
    } else if !ItemAt(p, i) {
      PlainPatterns(p, i + 1);
    } else {
      var e := NameEnd(p, i + 1);
      if Braced(p, i) {
        var c :| e + 1 < c < |p| && p[c] == '}';
        assert Close(p, e + 1) <= c;
      }
      PlainPatterns(p, ItemOf(p, i).1);
    }
  }

  /** Two pieces of the pattern's text never follow each other, and none is empty. */
  predicate Separate(ts: seq<Token>) {
    && (forall k :: 0 <= k < |ts| && ts[k].Literal? ==> ts[k].text != "")
    && (forall k :: 0 <= k < |ts| - 1 && ts[k].Literal? ==> !ts[k + 1].Literal?)
  }

  lemma {:induction false} TokensSeparate(p: string, i: nat, text: string)
    requires i <= |p|
    ensures Separate(Tokens(p, i, text))
    ensures Broken in Tokens(p, i, text) <==> Unfinished(p, i) > 0
    decreases |p| - i
  {
    hide ItemAt, Unclosed, ItemOf;
    if i == |p| {
    } else if !ItemAt(p, i) {
      TokensSeparate(p, i + 1, text + [p[i]]);
    } else if Unclosed(p, i) {
      TokensSeparate(p, i + 1, text);
      SeparateBehind([], Broken, Tokens(p, i + 1, text));
    } else {
      TokensSeparate(p, ItemOf(p, i).1, "");
      SeparateBehind(Flush(text), ItemOf(p, i).0, Tokens(p, ItemOf(p, i).1, ""));
    }
  }

  lemma SeparateBehind(before: seq<Token>, t: Token, ts: seq<Token>)
    requires Separate(ts) && Separate(before) && |before| <= 1 && !t.Literal? && Broken !in before
    ensures Separate(before + [t] + ts) && (Broken in before + [t] + ts <==> t.Broken? || Broken in ts)
  {
    var all := before + [t] + ts;
    var n := |before| + 1;
    assert forall k :: 0 <= k < |ts| ==> all[n + k] == ts[k];
    assert all[|before|] == t;
    forall k | 0 <= k < |all| && all[k].Literal?
      ensures all[k].text != "" && (k < |all| - 1 ==> !all[k + 1].Literal?)
    {
      if k >= n { assert all[k] == ts[k - n]; }
    }
    if Broken in ts {
      var k :| 0 <= k < |ts| && ts[k] == Broken;
      assert all[n + k] == Broken;
    }
  }

  /** Text is put out plain: the pattern's own, or the error text. */
  predicate IsText(t: Token) {
    !t.Item?
  }

  predicate Adjacent(ts: seq<Token>) {
    exists k :: 0 <= k < |ts| - 1 && IsText(ts[k]) && IsText(ts[k + 1])
  }

  predicate TextBehindBroken(ts: seq<Token>) {
    forall k :: 0 <= k < |ts| && ts[k].Broken? ==> k + 1 < |ts| && IsText(ts[k + 1])
  }

  lemma {:induction false} TextComesFirst(p: string, i: nat, text: string)
    requires i <= |p| && text != ""
    ensures Tokens(p, i, text) != [] && IsText(Tokens(p, i, text)[0])
    decreases |p| - i
  {
    hide Unclosed, ItemOf;
    if i < |p| && !ItemAt(p, i) { TextComesFirst(p, i + 1, text + [p[i]]); }
  }

  /** The name and the brace of an item that is never closed become text. */
  lemma BrokenBeforeText(p: string, i: nat, text: string)
    requires ItemAt(p, i) && Unclosed(p, i)
    ensures Tokens(p, i + 1, text) != [] && IsText(Tokens(p, i + 1, text)[0])
  {
    assert NameEnd(p, i + 1) > i + 1 ==> InName(p[i + 1]);
    assert !ItemAt(p, i + 1);
    TextComesFirst(p, i + 2, text + [p[i + 1]]);
  }

  lemma {:induction false} ErrorsBeforeText(p: string, i: nat, text: string)
    requires i <= |p|
    ensures TextBehindBroken(Tokens(p, i, text))
    decreases |p| - i
  {
    hide ItemAt, Unclosed, ItemOf, TextBehindBroken;
    if i == |p| {
      ErrorsInText(text);
    } else if !ItemAt(p, i) {
      ErrorsBeforeText(p, i + 1, text + [p[i]]);
    } else if Unclosed(p, i) {
      ErrorsBeforeText(p, i + 1, text);
      BrokenBeforeText(p, i, text);
      ErrorsBehind("", Broken, Tokens(p, i + 1, text));
      assert Flush("") + [Broken] == [Broken];
    } else {
      ErrorsBeforeText(p, ItemOf(p, i).1, "");
      ErrorsBehind(text, ItemOf(p, i).0, Tokens(p, ItemOf(p, i).1, ""));
    }
  }

  lemma ErrorsInText(text: string)
    ensures TextBehindBroken(Flush(text))
  {
  }

  lemma ErrorsBehind(text: string, t: Token, ts: seq<Token>)
    requires TextBehindBroken(ts) && (t.Broken? ==> ts != [] && IsText(ts[0]))
    ensures TextBehindBroken(Flush(text) + [t] + ts)
  {
    var all, n := Flush(text) + [t] + ts, |Flush(text)| + 1;
    forall k | 0 <= k < |all| && all[k].Broken? ensures k + 1 < |all| && IsText(all[k + 1]) {
      if k >= n {
        assert all[k] == ts[k - n];
        assert IsText(ts[k - n + 1]) && all[k + 1] == ts[k - n + 1];
      }
    }
  }

  /** Two pieces of text follow each other exactly when a brace is never closed; each error text is followed by text. */
  lemma TextAdjoinsExactly(p: string)
    ensures Adjacent(Tokens(p, 0, "")) <==> Unfinished(p, 0) > 0
    ensures TextBehindBroken(Tokens(p, 0, ""))
  {
    var ts := Tokens(p, 0, "");
    TokensSeparate(p, 0, "");
    ErrorsBeforeText(p, 0, "");
    if Broken in ts {
      var k :| 0 <= k < |ts| && ts[k] == Broken;
      assert IsText(ts[k]) && IsText(ts[k + 1]);
    }
  }

  function Signs(n: nat): string {
    if n == 0 then "" else ['%'] + Signs(n - 1)
  }

  /** Of a run of percent signs all but the last are text, and the last begins an item. */
  lemma {:induction false} PercentRun(p: string, i: nat, n: nat, text: string)
    requires 0 < n && i + n <= |p| && forall k :: i <= k < i + n ==> p[k] == '%'
    requires i + n < |p| ==> p[i + n] != '%'
    ensures ItemAt(p, i + n - 1) && Tokens(p, i, text) == Tokens(p, i + n - 1, text + Signs(n - 1))
    decreases n
  {
    if n == 1 {
      assert text + "" == text;
    } else {
      PercentRun(p, i + 1, n - 1, text + ['%']);
      assert text + ['%'] + Signs(n - 2) == text + (['%'] + Signs(n - 2));
    }
  }

  /** A doubled percent sign is not an escape: one sign is put out and the other begins an item or an error. */
  lemma DoubledPercent(p: string, i: nat, text: string)
    requires i + 1 < |p| && p[i] == p[i + 1] == '%' && (i + 2 < |p| ==> p[i + 2] != '%')
    ensures ItemAt(p, i + 1)
    ensures Tokens(p, i, text) == if Unclosed(p, i + 1) then [Broken] + Tokens(p, i + 2, text + "%") else
              [Literal(text + "%"), ItemOf(p, i + 1).0] + Tokens(p, ItemOf(p, i + 1).1, "")
  {
    hide Unclosed, ItemOf;
    PercentRun(p, i, 2, text);
    assert Signs(1) == "%" by { assert Signs(0) == ""; }
    TokensAt(p, i + 1, text + "%");
    if !Unclosed(p, i + 1) {
      assert Flush(text + "%") + [ItemOf(p, i + 1).0] == [Literal(text + "%"), ItemOf(p, i + 1).0];
    }
  }

  // ---- the tokenizing loops ----

  method Init(pattern: string) returns (vec: seq<Token>, error: bool)
    ensures vec == Tokens(pattern, 0, "")
    ensures error <==> Broken in vec
  {
    hide Tokens, ItemOf, Unclosed;
    vec, error := [], false;
    var nstr := "";
    var i := 0;
    while i < |pattern|
      invariant 0 <= i <= |pattern| && vec + Tokens(pattern, i, nstr) == Tokens(pattern, 0, "")
      invariant error <==> Broken in vec
    {
      TokensAt(pattern, i, nstr);
      if pattern[i] != '%' {
        nstr := nstr + [pattern[i]];
        i := i + 1;
        continue;
      }
      if i + 1 < |pattern| && pattern[i + 1] == '%' {
        nstr := nstr + "%";
        i := i + 1;
        continue;
      }
      var str, fmt, n, closed := Scan(pattern, i);
      if closed {
        assert vec + (Flush(nstr) + [Item(str, fmt)] + Tokens(pattern, n, ""))
            == vec + Flush(nstr) + [Item(str, fmt)] + Tokens(pattern, n, "");
        if nstr != "" {
          vec := vec + [Literal(nstr)];
          nstr := "";
        }
        vec := vec + [Item(str, fmt)];
        i := n;
      } else {
        assert vec + ([Broken] + Tokens(pattern, i + 1, nstr)) == vec + [Broken] + Tokens(pattern, i + 1, nstr);
        vec := vec + [Broken];
        error := true;
        i := i + 1;
      }
    }
    TokensAt(pattern, i, nstr);
    if nstr != "" { vec := vec + [Literal(nstr)]; }
  }

  /** One round of the outer loop. */
  lemma TokensAt(p: string, i: nat, text: string)
    requires i <= |p|
    ensures i == |p| ==> Tokens(p, i, text) == Flush(text)
    ensures i < |p| && !ItemAt(p, i) ==> Tokens(p, i, text) == Tokens(p, i + 1, text + [p[i]])
    ensures ItemAt(p, i) && Unclosed(p, i) ==> Tokens(p, i, text) == [Broken] + Tokens(p, i + 1, text)
    ensures ItemAt(p, i) && !Unclosed(p, i) ==>
      (Tokens(p, i, text) == Flush(text) + [ItemOf(p, i).0] + Tokens(p, ItemOf(p, i).1, ""))
  {
    hide Unclosed, ItemOf;
  }

  /** The inner loop: the name up to a brace or another character, then the format up to its brace. */
  method Scan(pattern: string, i: nat) returns (str: string, fmt: string, n: nat, closed: bool)
    requires ItemAt(pattern, i)
    ensures closed <==> !Unclosed(pattern, i)
    ensures closed ==> ItemOf(pattern, i) == (Item(str, fmt), n)
  {
    n, str, fmt := i + 1, "", "";
    var inFormat := false;
    var fmtBegin := 0;
    ghost var e := NameEnd(pattern, i + 1);
    while n < |pattern|
      invariant i + 1 <= n <= |pattern| && fmt == ""
      invariant !inFormat ==> n <= e && (str == if n == |pattern| then pattern[i + 1..] else "")
      invariant inFormat ==> Braced(pattern, i) && fmtBegin == e < n <= Close(pattern, e + 1)
      invariant inFormat && n < |pattern| ==> str == pattern[i + 1..e]
      decreases |pattern| - n
    {
      var c := pattern[n];
      if !inFormat && !IsAlpha(c) && c != '{' && c != '}' {
        str := pattern[i + 1..n];
        break;
      }
      if !inFormat {
        if c == '{' {
          str := pattern[i + 1..n];
          inFormat, fmtBegin := true, n;
          n := n + 1;
          continue;
        }
      } else if c == '}' {
        fmt := pattern[fmtBegin + 1..n];
        inFormat := false;
        n := n + 1;
        return str, fmt, n, true;
      }
      n := n + 1;
      if n == |pattern| && str == "" { str := pattern[i + 1..]; }
    }
    closed := !inFormat;
    assert closed ==> n == e && str == pattern[i + 1..e];
  }
}
