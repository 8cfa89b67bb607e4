/** The matcher of grep against the language its patterns denote. */
module Grep {
  // ---- what a pattern means

  /** A literal character, any character, or any run of characters each
      matching c, where '.' stands for any character. */
  datatype Item = Lit(c: char) | Any | Star(c: char)

  /** A pattern without its '^': the items, and whether a final '$' pins it to
      the end of the text. */
  datatype Pattern = Pattern(items: seq<Item>, pinned: bool)

  function Compile(re: string): (p: Pattern)
    ensures re != "" && !(|re| > 1 && re[1] == '*') && re != "$" ==> p.items != []
  {
    if re == "" then Pattern([], false)
    else if |re| > 1 && re[1] == '*' then
      var p := Compile(re[2..]);
      p.(items := [Star(re[0])] + p.items)
    else if re == "$" then Pattern([], true)
    else
      var p := Compile(re[1..]);
      p.(items := [if re[0] == '.' then Any else Lit(re[0])] + p.items)
  }

  predicate Fits(c: char, x: char) {
    c == '.' || x == c
  }

  predicate AllFit(c: char, s: string) {
    forall k :: 0 <= k < |s| ==> Fits(c, s[k])
  }

  predicate InItem(i: Item, s: string) {
    match i
    case Lit(c) => s == [c]
    case Any => |s| == 1
    case Star(c) => AllFit(c, s)
  }

  /** s is made of one piece for each item, in order. */
  predicate InLang(items: seq<Item>, s: string)
    decreases |items|
  {
    if items == [] then s == ""
    else exists k :: 0 <= k <= |s| && InItem(items[0], s[..k]) && InLang(items[1..], s[k..])
  }

  /** Some prefix of the text is in the language; all of it, if pinned. */
  predicate HasPrefix(p: Pattern, text: string) {
    exists k :: 0 <= k <= |text| && InLang(p.items, text[..k]) && (p.pinned ==> k == |text|)
  }

  /** Some suffix of the text has such a prefix; after '^', the whole text. */
  predicate Matches(re: string, text: string) {
    if re != "" && re[0] == '^' then HasPrefix(Compile(re[1..]), text)
    else exists j :: 0 <= j <= |text| && HasPrefix(Compile(re), text[j..])
  }

  /** A run of characters matching c, and then the rest of the pattern. */
  predicate StarThen(c: char, re: string, text: string) {
    exists k :: 0 <= k <= |text| && AllFit(c, text[..k]) && HasPrefix(Compile(re), text[k..])
  }

  // ---- the matcher

  method Match(re: string, text: string) returns (r: bool)
    ensures r <==> Matches(re, text)
  {
    if re != "" && re[0] == '^' {
      r := MatchHere(re[1..], text);
      return;
    }
    var i := 0;
    while true
      invariant i <= |text| && forall j :: 0 <= j < i ==> !HasPrefix(Compile(re), text[j..])
      decreases |text| - i
    {
      r := MatchHere(re, text[i..]);
      if r {
        return;
      }
      if i == |text| {
        return;
      }
      i := i + 1;
    }
  }

  method MatchHere(re: string, text: string) returns (r: bool)
    ensures r <==> HasPrefix(Compile(re), text)
    decreases |re|, 0
  {
    if re == "" {
      PrefixEmpty(text);
      return true;
    }
    if |re| > 1 && re[1] == '*' {
      PrefixStar(re[0], re[2..], text);
      assert re == [re[0], '*'] + re[2..];
      r := MatchStar(re[0], re[2..], text);
      return;
    }
    if re == "$" {
      PrefixEnd(text);
      return text == "";
    }
    PrefixChar(re, text);
    if text != "" && (re[0] == '.' || re[0] == text[0]) {
      r := MatchHere(re[1..], text[1..]);
      return;
    }
    return false;
  }

  method MatchStar(c: char, re: string, text: string) returns (r: bool)
    ensures r <==> StarThen(c, re, text)
    decreases |re|, 1
  {
    var i := 0;
    while true
      invariant i <= |text| && AllFit(c, text[..i])
      invariant forall j :: 0 <= j < i ==> !HasPrefix(Compile(re), text[j..])
      decreases |text| - i
    {
      r := MatchHere(re, text[i..]);
      if r {
        return;
      }
      if i == |text| || !(text[i] == c || c == '.') {
        forall k | i < k <= |text| ensures !AllFit(c, text[..k]) {
          assert !Fits(c, text[..k][i]);
        }
        return;
      }
      i := i + 1;
    }
  }

  // ---- the equations the matcher relies on

  lemma PrefixEmpty(text: string)
    ensures HasPrefix(Compile(""), text)
  {
    assert text[..0] == "" && InLang([], text[..0]);
  }

  lemma PrefixEnd(text: string)
    ensures HasPrefix(Compile("$"), text) <==> text == ""
  {
    assert Compile("$") == Pattern([], true);
    if text == "" { assert InLang([], text[..0]); }
  }

  lemma LangCut(items: seq<Item>, s: string) returns (m: nat)
    requires items != [] && InLang(items, s)
    ensures m <= |s| && InItem(items[0], s[..m]) && InLang(items[1..], s[m..])
  {
    m :| 0 <= m <= |s| && InItem(items[0], s[..m]) && InLang(items[1..], s[m..]);
  }

  lemma LangJoin(items: seq<Item>, s: string, m: nat)
    requires items != [] && m <= |s| && InItem(items[0], s[..m]) && InLang(items[1..], s[m..])
    ensures InLang(items, s)
  {
  }

  lemma Cut(text: string, m: nat, n: nat)
    requires m + n <= |text|
    ensures text[..m + n][..m] == text[..m] && text[..m + n][m..] == text[m..][..n]
  {
    assert forall i :: 0 <= i < n ==> text[..m + n][m..][i] == text[m..][..n][i];
  }

  /** One character taken off both. */
  lemma PrefixChar(re: string, text: string)
    requires re != "" && !(|re| > 1 && re[1] == '*') && re != "$"
    ensures HasPrefix(Compile(re), text) <==>
            text != "" && Fits(re[0], text[0]) && HasPrefix(Compile(re[1..]), text[1..])
  {
    hide InLang, Compile, HasPrefix;
    CharItems(re);
    if HasPrefix(Compile(re), text) { CharOff(Compile(re), Compile(re[1..]), re[0], text); }
    if text != "" && Fits(re[0], text[0]) && HasPrefix(Compile(re[1..]), text[1..]) {
      CharOn(Compile(re), Compile(re[1..]), re[0], text);
    }
  }

  /** p is one character that c stands for, and then q. */
  ghost predicate StartsWith(p: Pattern, q: Pattern, c: char) {
    && p.items != [] && p.items[1..] == q.items && p.pinned == q.pinned
    && forall s :: InItem(p.items[0], s) <==> |s| == 1 && Fits(c, s[0])
  }

  lemma CharOff(p: Pattern, q: Pattern, c: char, text: string)
    requires StartsWith(p, q, c) && HasPrefix(p, text)
    ensures text != "" && Fits(c, text[0]) && HasPrefix(q, text[1..])
  {
    hide InLang;
    var k :| 0 <= k <= |text| && InLang(p.items, text[..k]) && (p.pinned ==> k == |text|);
    var m := LangCut(p.items, text[..k]);
    assert text[..k][..m][0] == text[0];
    Cut(text, 1, k - 1);
  }

  lemma CharOn(p: Pattern, q: Pattern, c: char, text: string)
    requires StartsWith(p, q, c) && text != "" && Fits(c, text[0]) && HasPrefix(q, text[1..])
    ensures HasPrefix(p, text)
  {
    hide InLang;
    var k :| 0 <= k <= |text| - 1 && InLang(q.items, text[1..][..k]) && (q.pinned ==> k == |text| - 1);
    Cut(text, 1, k);
    assert text[..1] == [text[0]];
    LangJoin(p.items, text[..k + 1], 1);
  }

  lemma CharItems(re: string)
    requires re != "" && !(|re| > 1 && re[1] == '*') && re != "$"
    ensures StartsWith(Compile(re), Compile(re[1..]), re[0])
  {
    hide InLang;
  }

  /** The run of a star can end anywhere the rest of the pattern starts. */
  lemma PrefixStar(c: char, re: string, text: string)
    ensures HasPrefix(Compile([c, '*'] + re), text) <==> StarThen(c, re, text)
  {
    hide InLang, Compile;
    StarItems(c, re);
    var p, q := Compile([c, '*'] + re), Compile(re);
    if HasPrefix(p, text) {
      var k :| 0 <= k <= |text| && InLang(p.items, text[..k]) && (p.pinned ==> k == |text|);
      var m := LangCut(p.items, text[..k]);
      Cut(text, m, k - m);
      assert HasPrefix(q, text[m..]);
    }
    if StarThen(c, re, text) {
      var m :| 0 <= m <= |text| && AllFit(c, text[..m]) && HasPrefix(q, text[m..]);
      var k :| 0 <= k <= |text[m..]| && InLang(q.items, text[m..][..k]) && (q.pinned ==> k == |text[m..]|);
      Cut(text, m, k);
      LangJoin(p.items, text[..m + k], m);
    }
  }

  lemma StarItems(c: char, re: string)
    ensures var p, q := Compile([c, '*'] + re), Compile(re);
            p.items != [] && p.items[0] == Star(c) && p.items[1..] == q.items && p.pinned == q.pinned
  {
    hide InLang;
    assert ([c, '*'] + re)[2..] == re;
  }
}
