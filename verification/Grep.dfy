/** The regular expression matcher of grep.c, from chapter 9 of The Practice of Programming,
against what its patterns mean: a pattern is a list of items, a string matches when it can be
cut into pieces that fit the items one by one, and a text matches when a substring does.
Strings are C strings without their terminating NUL. */
module Grep {

  // ----- the matcher -----

  predicate MatchHere(re: string, text: string)
    decreases |re|, |text|, 0
  {
    if re == [] then true
    else if |re| > 1 && re[1] == '*' then MatchStar(re[0], re[2..], text)
    else if re[0] == '$' && |re| == 1 then text == []
    else if text != [] && (re[0] == '.' || re[0] == text[0]) then MatchHere(re[1..], text[1..])
    else false
  }

  /** The loop tries the rest of the pattern after zero, one, two, ... occurrences of c. */
  predicate MatchStar(c: char, re: string, text: string)
    decreases |re|, |text|, 1
  {
    MatchHere(re, text) || (text != [] && (text[0] == c || c == '.') && MatchStar(c, re, text[1..]))
  }

  method Match(re: string, text: string) returns (r: bool)
    ensures r <==> Matches(re, text)
  {
    if re != [] && re[0] == '^' {
      MatchHereMeaning(re[1..], text);
      assert text[0..] == text;
      r := MatchHere(re[1..], text);
      return;
    }
    var i := 0;
    while true
      invariant 0 <= i <= |text|
      invariant forall k :: 0 <= k < i ==> !Here(Items(re), text[k..])
      decreases |text| - i
    {
      MatchHereMeaning(re, text[i..]);
      if MatchHere(re, text[i..]) { return true; }
      if i == |text| { return false; }
      i := i + 1;
    }
  }

  // ----- what patterns mean -----

  /** c itself, any character, a run of one character (or of any, for '.'), the end of the text. */
  datatype Item = Lit(c: char) | Any | Run(c: char) | End

  /** The items of a pattern without its leading '^': c* is a run, a final '$' is the end, '.' is
      any character, and every other character stands for itself. */
  function Items(re: string): seq<Item> {
    if re == [] then []
    else if |re| > 1 && re[1] == '*' then [Run(re[0])] + Items(re[2..])
    else if re == "$" then [End]
    else [if re[0] == '.' then Any else Lit(re[0])] + Items(re[1..])
  }

  predicate Fits(t: Item, piece: string) {
    match t
    case Lit(c) => piece == [c]
    case Any => |piece| == 1
    case Run(c) => c == '.' || forall i :: 0 <= i < |piece| ==> piece[i] == c
    case End => piece == []
  }

  function Concat(pieces: seq<string>): string {
    if pieces == [] then [] else pieces[0] + Concat(pieces[1..])
  }

  /** The pieces fit the items one by one and together are s. */
  ghost predicate Cut(items: seq<Item>, s: string, pieces: seq<string>) {
    && |pieces| == |items| && Concat(pieces) == s
    && forall i :: 0 <= i < |items| ==> Fits(items[i], pieces[i])
  }

  /** s as a whole matches the items. */
  ghost predicate Denotes(items: seq<Item>, s: string) {
    exists pieces :: Cut(items, s, pieces)
  }

  /** Some prefix of text matches, all of text if the items end with the end of the text. */
  ghost predicate Here(items: seq<Item>, text: string) {
    exists k :: 0 <= k <= |text| && Denotes(items, text[..k]) && (End in items ==> k == |text|)
  }

  /** The meaning of a whole pattern: some substring matches; with '^' it starts the text, with a
      final '$' it ends it. */
  ghost predicate Matches(re: string, text: string) {
    if re != [] && re[0] == '^' then Here(Items(re[1..]), text)
    else exists i :: 0 <= i <= |text| && Here(Items(re), text[i..])
  }

  /** Spelled out: substring text[i..j]. */
  lemma MatchesSubstring(re: string, text: string)
    ensures var caret := re != [] && re[0] == '^';
      var items := Items(if caret then re[1..] else re);
      Matches(re, text) <==>
        exists i, j :: 0 <= i <= j <= |text| && Denotes(items, text[i..j]) && (caret ==> i == 0) && (End in items ==> j == |text|)
  {
    var caret := re != [] && re[0] == '^';
    var items := Items(if caret then re[1..] else re);
    if Matches(re, text) {
      var i :| 0 <= i <= |text| && Here(items, text[i..]) && (caret ==> i == 0) by { assert text[0..] == text; }
      var k :| 0 <= k <= |text[i..]| && Denotes(items, text[i..][..k]) && (End in items ==> k == |text[i..]|);
      assert text[i..][..k] == text[i..i + k];
    }
    forall i, j | 0 <= i <= j <= |text| && Denotes(items, text[i..j]) && (caret ==> i == 0) && (End in items ==> j == |text|)
      ensures Matches(re, text)
    {
      assert text[i..][..j - i] == text[i..j];
      assert Here(items, text[i..]);
      assert caret ==> text[i..] == text;
    }
  }

  // ----- the proof -----

  /** The end of the text can only come last. */
  lemma {:induction false} EndIsLast(re: string)
    ensures forall i :: 0 <= i < |Items(re)| && Items(re)[i] == End ==> i == |Items(re)| - 1
  {
    if re == [] || re == "$" {}
    else if |re| > 1 && re[1] == '*' { EndIsLast(re[2..]); }
    else { EndIsLast(re[1..]); }
  }

  /** Cutting off a first piece. */
  lemma DenotesCons(t: Item, items: seq<Item>, s: string)
    ensures Denotes([t] + items, s) <==> exists m :: 0 <= m <= |s| && Fits(t, s[..m]) && Denotes(items, s[m..])
  {
    if Denotes([t] + items, s) {
      var pieces :| Cut([t] + items, s, pieces);
      var m := |pieces[0]|;
      assert s[..m] == pieces[0] && s[m..] == Concat(pieces[1..]);
      assert forall i :: 0 <= i < |items| ==> ([t] + items)[i + 1] == items[i];
      assert Cut(items, s[m..], pieces[1..]);
    }
    forall m | 0 <= m <= |s| && Fits(t, s[..m]) && Denotes(items, s[m..]) ensures Denotes([t] + items, s) {
      var ps :| Cut(items, s[m..], ps);
      var pieces := [s[..m]] + ps;
      assert pieces[1..] == ps && s[..m] + s[m..] == s;
      assert Cut([t] + items, s, pieces);
    }
  }

  lemma HereCons(t: Item, items: seq<Item>, text: string)
    requires t != End
    ensures Here([t] + items, text) <==> exists m :: 0 <= m <= |text| && Fits(t, text[..m]) && Here(items, text[m..])
  {
    hide Here, Fits;
    if Here([t] + items, text) { var _ := HereFirst(t, items, text); }
    forall m | 0 <= m <= |text| && Fits(t, text[..m]) && Here(items, text[m..]) ensures Here([t] + items, text) {
      HereJoin(t, items, text, m);
    }
  }

  /** A match of t and then items splits into the part of t and a match behind it. */
  lemma HereFirst(t: Item, items: seq<Item>, text: string) returns (m: nat)
    requires t != End && Here([t] + items, text)
    ensures m <= |text| && Fits(t, text[..m]) && Here(items, text[m..])
  {
    assert End in [t] + items <==> End in items;
    var k :| 0 <= k <= |text| && Denotes([t] + items, text[..k]) && (End in items ==> k == |text|);
    DenotesCons(t, items, text[..k]);
    hide Denotes, Fits;
    m :| 0 <= m <= k && Fits(t, text[..k][..m]) && Denotes(items, text[..k][m..]);
    assert text[..k][..m] == text[..m] && text[..k][m..] == text[m..][..k - m];
  }

  lemma HereJoin(t: Item, items: seq<Item>, text: string, m: nat)
    requires t != End && m <= |text| && Fits(t, text[..m]) && Here(items, text[m..])
    ensures Here([t] + items, text)
  {
    assert End in [t] + items <==> End in items;
    var k :| 0 <= k <= |text[m..]| && Denotes(items, text[m..][..k]) && (End in items ==> k == |text[m..]|);
    DenotesCons(t, items, text[..m + k]);
    hide Denotes, Fits;
    assert text[..m + k][..m] == text[..m] && text[..m + k][m..] == text[m..][..k];
  }

  /** matchhere decides whether the pattern matches at the beginning of the text. */
  lemma {:induction false} MatchHereMeaning(re: string, text: string)
    ensures MatchHere(re, text) <==> Here(Items(re), text)
    decreases |re|, |text|, 0
  {
    if re == [] {
      assert Cut([], text[..0], []);
    } else if |re| > 1 && re[1] == '*' {
      MatchStarMeaning(re[0], re[2..], text);
      HereCons(Run(re[0]), Items(re[2..]), text);
    } else if re == "$" {
      EndMeaning(text);
    } else {
      var t := if re[0] == '.' then Any else Lit(re[0]);
      HereCons(t, Items(re[1..]), text);
      if text != [] {
        MatchHereMeaning(re[1..], text[1..]);
        assert text[..1] == [text[0]];
      }
    }
  }

  lemma EndMeaning(text: string)
    ensures Here([End], text) <==> text == []
  {
    if Here([End], text) {
      var k :| 0 <= k <= |text| && Denotes([End], text[..k]) && k == |text|;
      var pieces :| Cut([End], text[..k], pieces);
      assert Concat(pieces) == pieces[0] + Concat(pieces[1..]);
    }
    if text == [] { assert Cut([End], text[..0], [[]]); }
  }

  /** matchstar decides whether a run of c and then the pattern match at the beginning. */
  lemma {:induction false} MatchStarMeaning(c: char, re: string, text: string)
    ensures MatchStar(c, re, text) <==> exists m :: 0 <= m <= |text| && Fits(Run(c), text[..m]) && Here(Items(re), text[m..])
    decreases |re|, |text|, 1
  {
    MatchHereMeaning(re, text);
    assert text[0..] == text;
    if Here(Items(re), text) { assert Fits(Run(c), text[..0]) && Here(Items(re), text[0..]); }
    if text != [] {
      MatchStarMeaning(c, re, text[1..]);
      RunCons(c, Items(re), text);
    }
  }

  lemma RunCons(c: char, items: seq<Item>, text: string)
    requires text != []
    ensures (exists m :: 0 <= m <= |text| && Fits(Run(c), text[..m]) && Here(items, text[m..])) <==>
            Here(items, text) || ((text[0] == c || c == '.') &&
              exists m :: 0 <= m <= |text[1..]| && Fits(Run(c), text[1..][..m]) && Here(items, text[1..][m..]))
  {
    assert text[0..] == text;
    forall m | 1 <= m <= |text|
      ensures Fits(Run(c), text[..m]) <==> (text[0] == c || c == '.') && Fits(Run(c), text[1..][..m - 1])
      ensures text[1..][m - 1..] == text[m..]
    {
      assert text[..m] == [text[0]] + text[1..][..m - 1];
      if Fits(Run(c), text[..m]) && c != '.' { assert text[..m][0] == c; }
    }
    if Here(items, text) { assert Fits(Run(c), text[..0]) && Here(items, text[0..]); }
    if exists m :: 0 <= m <= |text[1..]| && Fits(Run(c), text[1..][..m]) && Here(items, text[1..][m..]) {
      var m :| 0 <= m <= |text[1..]| && Fits(Run(c), text[1..][..m]) && Here(items, text[1..][m..]);
      assert text[1..][m..] == text[m + 1..];
      if text[0] == c || c == '.' { assert Fits(Run(c), text[..m + 1]); }
    }
    if exists m :: 0 <= m <= |text| && Fits(Run(c), text[..m]) && Here(items, text[m..]) {
      var m :| 0 <= m <= |text| && Fits(Run(c), text[..m]) && Here(items, text[m..]);
      if m > 0 { assert Fits(Run(c), text[1..][..m - 1]) && Here(items, text[1..][m - 1..]); }
    }
  }
}
