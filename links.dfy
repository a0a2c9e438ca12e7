/** The link generator behind /addlink and /addusername: free text is split on
    runs of commas and whitespace, every non-empty token is cleaned (spaces
    removed, leading '@' characters stripped) and turned into a t.me URL, and
    the URLs are joined with newlines. */
module Links {

  const Base: string := "https://t.me/"

  /** Python's str.isspace (also what `\s` matches in a str pattern). */
  predicate IsSpace(c: char) {
    || c == ' '
    || ('\t' <= c <= '\r')
    || ('\U{1C}' <= c <= '\U{1F}')
    || c == '\U{85}' || c == '\U{A0}' || c == '\U{1680}'
    || ('\U{2000}' <= c <= '\U{200A}')
    || c == '\U{2028}' || c == '\U{2029}' || c == '\U{202F}' || c == '\U{205F}'
    || c == '\U{3000}'
  }

  /** The 29 characters for which Python's str.isspace holds. */
  const PythonWhitespace: set<char> := {
    '\t', '\n', '\U{B}', '\U{C}', '\r', '\U{1C}', '\U{1D}', '\U{1E}', '\U{1F}', ' ',
    '\U{85}', '\U{A0}', '\U{1680}',
    '\U{2000}', '\U{2001}', '\U{2002}', '\U{2003}', '\U{2004}', '\U{2005}',
    '\U{2006}', '\U{2007}', '\U{2008}', '\U{2009}', '\U{200A}',
    '\U{2028}', '\U{2029}', '\U{202F}', '\U{205F}', '\U{3000}'}

  /** IsSpace holds of exactly the characters Python counts as whitespace,
      and a separator is a comma or one of them. */
  lemma SeparatorsArePythonWhitespaceAndComma(c: char)
    ensures IsSpace(c) <==> c in PythonWhitespace
    ensures IsSep(c) <==> c == ',' || c in PythonWhitespace
  {
  }

  /** A character of the split pattern `[,\s\n]`. */
  predicate IsSep(c: char) {
    c == ',' || c == '\n' || IsSpace(c)
  }

  predicate NoSep(s: string) {
    forall i :: 0 <= i < |s| ==> !IsSep(s[i])
  }

  /** The longest prefix of `s` without a separator. */
  function Word(s: string): (w: string)
    ensures |w| <= |s| && w == s[..|w|]
    ensures NoSep(w)
    ensures |w| < |s| ==> IsSep(s[|w|])
  {
    if s == [] || IsSep(s[0]) then [] else [s[0]] + Word(s[1..])
  }

  /** `s` without its leading run of separators. */
  function SkipSeps(s: string): (r: string)
    ensures |r| <= |s| && r == s[|s| - |r|..]
    ensures r == [] || !IsSep(r[0])
    ensures s != [] && IsSep(s[0]) ==> |r| < |s|
  {
    if s != [] && IsSep(s[0]) then SkipSeps(s[1..]) else s
  }

  /** `re.split(r'[,\s\n]+', s)`: the pieces between maximal runs of
      separators, including an empty first or last piece when `s` begins or
      ends with a separator. */
  function Split(s: string): (pieces: seq<string>)
    ensures |pieces| >= 1
    decreases |s|
  {
    var w := Word(s);
    if |w| == |s| then [w] else [w] + Split(SkipSeps(s[|w|..]))
  }

  /** No piece of the split holds a separator. */
  lemma {:induction false} SplitPieceHasNoSep(s: string, k: nat)
    requires k < |Split(s)|
    ensures NoSep(Split(s)[k])
    decreases |s|
  {
    var w := Word(s);
    if |w| == |s| {
      assert Split(s) == [w];
    } else {
      var rest := SkipSeps(s[|w|..]);
      assert Split(s) == [w] + Split(rest);
      if k > 0 {
        SplitPieceHasNoSep(rest, k - 1);
      }
    }
  }

  /** The non-empty maximal separator-free runs of `s`, in order: the
      reference definition of the tokens the generator turns into links. */
  function Tokens(s: string): (toks: seq<string>)
    ensures forall k :: 0 <= k < |toks| ==> toks[k] != [] && NoSep(toks[k])
    decreases |s|
  {
    if s == [] then []
    else if IsSep(s[0]) then Tokens(s[1..])
    else var w := Word(s); [w] + Tokens(s[|w|..])
  }

  /** The pieces that are not empty, in order (the `if not item: continue`). */
  function NonEmpty(pieces: seq<string>): (r: seq<string>)
    ensures forall k :: 0 <= k < |r| ==> r[k] != []
    ensures |r| <= |pieces|
  {
    if pieces == [] then []
    else (if pieces[0] == [] then [] else [pieces[0]]) + NonEmpty(pieces[1..])
  }

  /** `str.lstrip(c)`: drop every leading `c`. */
  function LStrip(s: string, c: char): (r: string)
    ensures |r| <= |s| && r == s[|s| - |r|..]
    ensures r == [] || r[0] != c
    ensures forall k :: 0 <= k < |s| - |r| ==> s[k] == c
  {
    if s != [] && s[0] == c then LStrip(s[1..], c) else s
  }

  /** `str.strip()`: drop leading and trailing whitespace. */
  function Strip(s: string): (r: string)
    ensures (forall k :: 0 <= k < |s| ==> !IsSpace(s[k])) ==> r == s
  {
    DropTrailingSpace(DropLeadingSpace(s))
  }

  function DropLeadingSpace(s: string): (r: string)
    ensures (forall k :: 0 <= k < |s| ==> !IsSpace(s[k])) ==> r == s
  {
    if s != [] && IsSpace(s[0]) then DropLeadingSpace(s[1..]) else s
  }

  function DropTrailingSpace(s: string): (r: string)
    ensures (forall k :: 0 <= k < |s| ==> !IsSpace(s[k])) ==> r == s
  {
    if s != [] && IsSpace(s[|s| - 1]) then DropTrailingSpace(s[..|s| - 1]) else s
  }

  /** `str.replace(" ", "")`. */
  function RemoveSpaces(s: string): string {
    if s == [] then []
    else (if s[0] == ' ' then [] else [s[0]]) + RemoveSpaces(s[1..])
  }

  /** A string without spaces is left as it is. */
  lemma {:induction false} RemoveSpacesOfSpaceFree(s: string)
    requires forall k :: 0 <= k < |s| ==> s[k] != ' '
    ensures RemoveSpaces(s) == s
  {
    if s != [] {
      assert forall k :: 0 <= k < |s[1..]| ==> s[1..][k] == s[k + 1];
      RemoveSpacesOfSpaceFree(s[1..]);
      assert s == [s[0]] + s[1..];
    }
  }

  /** Removing spaces leaves no space and keeps every other character, as
      often as it occurs. */
  lemma {:induction false} RemoveSpacesKeepsOthers(s: string)
    ensures multiset(RemoveSpaces(s)) == multiset(s)[' ' := 0]
    ensures forall k :: 0 <= k < |RemoveSpaces(s)| ==> RemoveSpaces(s)[k] != ' '
  {
    if s != [] {
      var head := if s[0] == ' ' then [] else [s[0]];
      RemoveSpacesKeepsOthers(s[1..]);
      assert s == [s[0]] + s[1..];
      assert multiset(s)[' ' := 0] == multiset(head) + multiset(s[1..])[' ' := 0];
    }
    var r := RemoveSpaces(s);
    forall k | 0 <= k < |r| ensures r[k] != ' ' {
      assert r[k] in multiset(r);
    }
  }

  /** Removing spaces works piece by piece, so every other character keeps
      its place. */
  lemma {:induction false} RemoveSpacesAppend(a: string, b: string)
    ensures RemoveSpaces(a + b) == RemoveSpaces(a) + RemoveSpaces(b)
  {
    if a == [] {
      assert a + b == b;
    } else {
      var c, t := a[0], a[1..];
      RemoveSpacesAppend(t, b);
      RemoveSpacesConsStep(c, t, b);
      assert a == [c] + t;
      assert a + b == [c] + t + b;
    }
  }

  /** The inductive step of RemoveSpacesAppend: a first character `c` is
      kept or dropped the same way in front of `t + b` as in front of `t`. */
  lemma RemoveSpacesConsStep(c: char, t: string, b: string)
    requires RemoveSpaces(t + b) == RemoveSpaces(t) + RemoveSpaces(b)
    ensures RemoveSpaces([c] + t + b) == RemoveSpaces([c] + t) + RemoveSpaces(b)
  {
    var head := if c == ' ' then [] else [c];
    var x, y := RemoveSpaces(t), RemoveSpaces(b);
    calc {
      RemoveSpaces([c] + t + b);
    == { assert [c] + t + b == [c] + (t + b); }
      RemoveSpaces([c] + (t + b));
    == { RemoveSpacesCons(c, t + b); }
      head + (x + y);
    == { assert head + (x + y) == (head + x) + y; }
      (head + x) + y;
    == { RemoveSpacesCons(c, t); }
      RemoveSpaces([c] + t) + y;
    }
  }

  lemma RemoveSpacesCons(c: char, s: string)
    ensures RemoveSpaces([c] + s) == (if c == ' ' then [] else [c]) + RemoveSpaces(s)
  {
    assert ([c] + s)[0] == c && ([c] + s)[1..] == s;
  }

  /** A single character survives exactly when it is not a space. */
  lemma RemoveSpacesOfChar(c: char)
    ensures RemoveSpaces([c]) == if c == ' ' then [] else [c]
  {
    assert [c][1..] == [];
  }

  /** A token as the generator cleans it. */
  function Clean(tok: string): string {
    LStrip(tok, '@')
  }

  /** Cleaning keeps the suffix left after the token's leading run of '@'
      characters. */
  lemma CleanDropsLeadingAt(tok: string)
    ensures var r := Clean(tok);
      && |r| <= |tok| && r == tok[|tok| - |r|..]
      && (r == [] || r[0] != '@')
      && (forall k :: 0 <= k < |tok| - |r| ==> tok[k] == '@')
  {
  }

  /** The username-mode link: t.me followed by the cleaned name, whose
      leading '@' characters are all gone. */
  function UsernameLink(clean: string): (line: string)
    ensures |line| >= |Base| && line[..|Base|] == Base
    ensures line[|Base|..] == clean
  {
    Base + clean
  }

  /** The number-mode link: t.me followed by exactly the one '+' the
      number carried, or a '+' added when it carried none. */
  function NumberLink(clean: string): (line: string)
    ensures |line| > |Base| && line[..|Base|] == Base && line[|Base|] == '+'
    ensures line[|Base| + 1..] == if clean != [] && clean[0] == '+' then clean[1..] else clean
  {
    if !(clean != [] && clean[0] == '+') then Base + "+" + clean else Base + clean
  }

  predicate ValidMode(mode: string) {
    mode == "username" || mode == "number"
  }

  /** The line for one token in a valid mode. */
  function Line(mode: string, tok: string): string
    requires ValidMode(mode)
  {
    if mode == "username" then UsernameLink(Clean(tok)) else NumberLink(Clean(tok))
  }

  /** Every line is a t.me link: username mode appends the cleaned token,
      number mode a '+' and the cleaned token without its own '+'. */
  lemma LineShape(mode: string, tok: string)
    requires ValidMode(mode)
    ensures var line := Line(mode, tok);
      && |line| >= |Base| && line[..|Base|] == Base
      && (mode == "username" ==> line[|Base|..] == Clean(tok))
      && (mode == "number" ==> |line| > |Base| && line[|Base|] == '+')
  {
  }

  /** The lines for a token sequence; a mode that is neither "username" nor
      "number" appends nothing. */
  function Lines(mode: string, toks: seq<string>): (lines: seq<string>)
    ensures ValidMode(mode) ==> |lines| == |toks|
    ensures !ValidMode(mode) ==> lines == []
  {
    if !ValidMode(mode) || toks == [] then []
    else [Line(mode, toks[0])] + Lines(mode, toks[1..])
  }

  /** `"\n".join(lines)`. */
  function JoinLines(lines: seq<string>): string {
    if lines == [] then []
    else if |lines| == 1 then lines[0]
    else lines[0] + "\n" + JoinLines(lines[1..])
  }

  /** The join starts with the first line, followed by a newline when more
      lines come; it is empty only for no lines or one empty line. */
  lemma JoinLinesShape(lines: seq<string>)
    ensures var r := JoinLines(lines);
      && (r == [] <==> lines == [] || lines == [[]])
      && (lines != [] ==> |lines[0]| <= |r| && r[..|lines[0]|] == lines[0])
      && (|lines| > 1 ==> |lines[0]| < |r| && r[|lines[0]|] == '\n')
  {
  }

  /** The prefix of `s` before its first newline. */
  function UntilNewline(s: string): (w: string)
    ensures |w| <= |s| && w == s[..|w|]
    ensures |w| < |s| ==> s[|w|] == '\n'
  {
    if s == [] || s[0] == '\n' then [] else [s[0]] + UntilNewline(s[1..])
  }

  /** `s.split("\n")`: the inverse of JoinLines on newline-free lines. */
  function SplitLines(s: string): (lines: seq<string>)
    ensures |lines| >= 1
    decreases |s|
  {
    var w := UntilNewline(s);
    if |w| == |s| then [w] else [w] + SplitLines(s[|w| + 1..])
  }

  /** generate_tme_links: split the text as `re.split` does, turn the
      pieces into links, and join them with newlines. */
  method GenerateTmeLinks(text: string, mode: string) returns (out: string)
    ensures out == JoinLines(Lines(mode, Tokens(text)))
  {
    var items := Split(text);
    SplitPiecesHaveNoSep(text);
    var links := LinksOfPieces(items, mode);
    SplitKeepsTokens(text);
    out := JoinLines(links);
  }

  /** The loop of generate_tme_links: one pass over the split pieces,
      skipping empty ones and appending one link per remaining token. */
  method LinksOfPieces(items: seq<string>, mode: string) returns (links: seq<string>)
    requires forall k :: 0 <= k < |items| ==> NoSep(items[k])
    ensures links == Lines(mode, NonEmpty(items))
  {
    links := [];
    for i := 0 to |items|
      invariant links == Lines(mode, NonEmpty(items[..i]))
    {
      NonEmptyStep(items, i);
      PieceIsClean(items[i]);
      var item := Strip(items[i]);
      if item == [] {
        assert NonEmpty(items[..i + 1]) == NonEmpty(items[..i]) + [];
        assert NonEmpty(items[..i]) + [] == NonEmpty(items[..i]);
        continue;
      }
      assert NonEmpty(items[..i + 1]) == NonEmpty(items[..i]) + [item];
      var cleanItem := LStrip(RemoveSpaces(item), '@');
      assert item == items[i] && cleanItem == Clean(item);
      LinesStep(mode, NonEmpty(items[..i]), item);
      if mode == "username" {
        assert Line(mode, item) == Base + cleanItem;
        links := links + [Base + cleanItem];
      } else if mode == "number" {
        if !(cleanItem != [] && cleanItem[0] == '+') {
          assert Line(mode, item) == Base + "+" + cleanItem;
          links := links + [Base + "+" + cleanItem];
        } else {
          assert Line(mode, item) == Base + cleanItem;
          links := links + [Base + cleanItem];
        }
      }
    }
    assert items[..|items|] == items;
  }

  lemma SplitPiecesHaveNoSep(s: string)
    ensures forall k :: 0 <= k < |Split(s)| ==> NoSep(Split(s)[k])
  {
    forall k | 0 <= k < |Split(s)| ensures NoSep(Split(s)[k]) {
      SplitPieceHasNoSep(s, k);
    }
  }

  /** A piece of the split has no whitespace, so stripping it and removing
      its spaces change nothing. */
  lemma PieceIsClean(p: string)
    requires NoSep(p)
    ensures Strip(p) == p && RemoveSpaces(p) == p
  {
    assert forall k :: 0 <= k < |p| ==> !IsSpace(p[k]) && p[k] != ' ';
    RemoveSpacesOfSpaceFree(p);
  }

  /** One more token adds its own line, and only in a valid mode. */
  lemma LinesStep(mode: string, prev: seq<string>, tok: string)
    ensures Lines(mode, prev + [tok]) == Lines(mode, prev) +
      if ValidMode(mode) then [Line(mode, tok)] else []
  {
    LinesAppend(mode, prev, [tok]);
    assert [tok][1..] == [];
  }

  lemma NonEmptyStep(pieces: seq<string>, i: nat)
    requires i < |pieces|
    ensures NonEmpty(pieces[..i + 1]) == NonEmpty(pieces[..i]) + NonEmpty([pieces[i]])
    ensures NonEmpty([pieces[i]]) == if pieces[i] == [] then [] else [pieces[i]]
  {
    assert pieces[..i + 1] == pieces[..i] + [pieces[i]];
    NonEmptyAppend(pieces[..i], [pieces[i]]);
    assert [pieces[i]][1..] == [];
  }

  lemma NonEmptyAppend(a: seq<string>, b: seq<string>)
    ensures NonEmpty(a + b) == NonEmpty(a) + NonEmpty(b)
  {
    if a == [] {
      assert a + b == b;
    } else {
      assert (a + b)[1..] == a[1..] + b;
      NonEmptyAppend(a[1..], b);
    }
  }

  lemma LinesAppend(mode: string, a: seq<string>, b: seq<string>)
    ensures Lines(mode, a + b) == Lines(mode, a) + Lines(mode, b)
  {
    if a == [] {
      assert a + b == b;
    } else if ValidMode(mode) {
      assert (a + b)[1..] == a[1..] + b;
      LinesAppend(mode, a[1..], b);
    }
  }

  lemma TokensSkipSeps(s: string)
    ensures Tokens(SkipSeps(s)) == Tokens(s)
    decreases |s|
  {
    if s != [] && IsSep(s[0]) {
      TokensSkipSeps(s[1..]);
    }
  }

  /** Dropping the empty pieces of `re.split` leaves exactly the tokens. */
  lemma {:induction false} SplitKeepsTokens(s: string)
    ensures NonEmpty(Split(s)) == Tokens(s)
    decreases |s|
  {
    var w := Word(s);
    if |w| == |s| {
      assert w == s;
      if s != [] {
        assert s[|w|..] == [];
      }
    } else {
      var rest := SkipSeps(s[|w|..]);
      SplitKeepsTokens(rest);
      NonEmptyAppend([w], Split(rest));
      TokensSkipSeps(s[|w|..]);
      if w == [] {
        assert s[|w|..] == s;
        assert IsSep(s[0]);
        assert Tokens(s) == Tokens(s[1..]);
        TokensSkipSeps(s);
        assert SkipSeps(s) == SkipSeps(s[1..]);
        TokensSkipSeps(s[1..]);
      } else {
        assert !IsSep(s[0]);
      }
    }
  }

  function RemoveSeps(s: string): string {
    if s == [] then [] else (if IsSep(s[0]) then [] else [s[0]]) + RemoveSeps(s[1..])
  }

  function Concat(ss: seq<string>): string {
    if ss == [] then [] else ss[0] + Concat(ss[1..])
  }

  lemma RemoveSepsAppend(a: string, b: string)
    ensures RemoveSeps(a + b) == RemoveSeps(a) + RemoveSeps(b)
  {
    if a == [] {
      assert a + b == b;
    } else {
      assert (a + b)[1..] == a[1..] + b;
      RemoveSepsAppend(a[1..], b);
    }
  }

  lemma RemoveSepsOfWord(w: string)
    requires NoSep(w)
    ensures RemoveSeps(w) == w
  {
    if w != [] {
      RemoveSepsOfWord(w[1..]);
    }
  }

  /** Nothing but the separators is lost: the tokens, concatenated in
      order, are the input with its commas and whitespace removed. */
  lemma {:induction false} TokensCoverInput(s: string)
    ensures Concat(Tokens(s)) == RemoveSeps(s)
    decreases |s|
  {
    if s == [] {
    } else if IsSep(s[0]) {
      TokensCoverInput(s[1..]);
    } else {
      var w := Word(s);
      TokensCoverInput(s[|w|..]);
      assert s == w + s[|w|..];
      RemoveSepsAppend(w, s[|w|..]);
      RemoveSepsOfWord(w);
    }
  }

  predicate NoNewline(l: string) {
    forall k :: 0 <= k < |l| ==> l[k] != '\n'
  }

  lemma UntilNewlineOfJoin(l: string, rest: string)
    requires NoNewline(l)
    ensures UntilNewline(l + "\n" + rest) == l
  {
    if l != [] {
      assert (l + "\n" + rest)[1..] == l[1..] + "\n" + rest;
      UntilNewlineOfJoin(l[1..], rest);
    }
  }

  lemma UntilNewlineOfLine(l: string)
    requires NoNewline(l)
    ensures UntilNewline(l) == l
  {
    if l != [] {
      UntilNewlineOfLine(l[1..]);
    }
  }

  /** Joining newline-free lines and splitting the result on newlines gives
      the lines back. */
  lemma {:induction false} SplitJoinLines(lines: seq<string>)
    requires lines != []
    requires forall j :: 0 <= j < |lines| ==> NoNewline(lines[j])
    ensures SplitLines(JoinLines(lines)) == lines
  {
    if |lines| == 1 {
      UntilNewlineOfLine(lines[0]);
    } else {
      var l, rest := lines[0], JoinLines(lines[1..]);
      var s := l + "\n" + rest;
      assert JoinLines(lines) == s;
      UntilNewlineOfJoin(l, rest);
      assert |UntilNewline(s)| < |s|;
      assert s[|l| + 1..] == rest;
      assert SplitLines(s) == [l] + SplitLines(rest);
      SplitJoinLines(lines[1..]);
      assert lines == [l] + lines[1..];
    }
  }

  lemma BaseHasNoSep()
    ensures NoSep(Base) && NoSep(Base + "+")
  {
    var b := Base + "+";
    forall k | 0 <= k < |b| ensures !IsSep(b[k]) {
      assert b[k] in "https:/t.me+";
    }
  }

  lemma NoSepAppend(a: string, b: string)
    requires NoSep(a) && NoSep(b)
    ensures NoSep(a + b)
  {
    forall k | 0 <= k < |a + b| ensures !IsSep((a + b)[k]) {
      if k >= |a| {
        assert (a + b)[k] == b[k - |a|];
      }
    }
  }

  lemma LineHasNoSep(mode: string, tok: string)
    requires ValidMode(mode) && NoSep(tok)
    ensures NoSep(Line(mode, tok))
  {
    var c := Clean(tok);
    assert NoSep(c) by {
      forall k | 0 <= k < |c| ensures !IsSep(c[k]) {
        assert c[k] == tok[|tok| - |c| + k];
      }
    }
    BaseHasNoSep();
    NoSepAppend(Base, c);
    NoSepAppend(Base + "+", c);
  }

  lemma {:induction false} LinesHaveNoSep(mode: string, toks: seq<string>)
    requires forall k :: 0 <= k < |toks| ==> NoSep(toks[k])
    ensures forall k :: 0 <= k < |Lines(mode, toks)| ==> NoSep(Lines(mode, toks)[k])
  {
    if ValidMode(mode) && toks != [] {
      LineHasNoSep(mode, toks[0]);
      LinesHaveNoSep(mode, toks[1..]);
    }
  }

  lemma {:induction false} LinesAt(mode: string, toks: seq<string>, k: nat)
    requires ValidMode(mode) && k < |toks|
    ensures Lines(mode, toks)[k] == Line(mode, toks[k])
  {
    assert Lines(mode, toks) == [Line(mode, toks[0])] + Lines(mode, toks[1..]);
    if k > 0 {
      LinesAt(mode, toks[1..], k - 1);
    }
  }

  /** The output is one newline-separated line per token, in input order:
      splitting it on newlines gives back exactly the lines built token by
      token, and no line carries a comma or whitespace. */
  lemma OutputIsOneLinePerToken(text: string, mode: string)
    requires ValidMode(mode) && Tokens(text) != []
    ensures var toks := Tokens(text);
            var out := JoinLines(Lines(mode, toks));
            && |SplitLines(out)| == |toks|
            && (forall k :: 0 <= k < |toks| ==> SplitLines(out)[k] == Line(mode, toks[k]))
            && (forall k :: 0 <= k < |toks| ==> NoSep(SplitLines(out)[k]))
  {
    var toks := Tokens(text);
    var lines := Lines(mode, toks);
    LinesHaveNoSep(mode, toks);
    SplitJoinLines(lines);
    forall k | 0 <= k < |toks| ensures lines[k] == Line(mode, toks[k]) {
      LinesAt(mode, toks, k);
    }
  }

  lemma {:induction false} JoinLinesEmpty(lines: seq<string>)
    requires forall k :: 0 <= k < |lines| ==> lines[k] != []
    ensures JoinLines(lines) == [] <==> lines == []
  {
    if |lines| > 1 {
      JoinLinesEmpty(lines[1..]);
    }
  }

  /** The output is empty exactly when the text has no token or the mode is
      neither "username" nor "number"; the command handlers report "No valid
      ..." in that case. */
  lemma EmptyOutputIff(text: string, mode: string)
    ensures JoinLines(Lines(mode, Tokens(text))) == [] <==> (Tokens(text) == [] || !ValidMode(mode))
  {
    var lines := Lines(mode, Tokens(text));
    if ValidMode(mode) {
      forall k | 0 <= k < |lines| ensures lines[k] != [] {
        LinesAt(mode, Tokens(text), k);
      }
    }
    JoinLinesEmpty(lines);
  }

  /** In username mode each line is t.me followed by the token with all of
      its leading '@' removed. */
  lemma UsernameLines(text: string, k: nat)
    requires k < |Tokens(text)|
    ensures var tok := Tokens(text)[k];
            var line := Lines("username", Tokens(text))[k];
            && line == Base + LStrip(tok, '@')
            && (|line| > |Base| ==> line[|Base|] != '@')
            && forall j :: 0 <= j < |tok| - (|line| - |Base|) ==> tok[j] == '@'
  {
    LinesAt("username", Tokens(text), k);
  }

  /** In number mode every line starts with "https://t.me/+" and a '+' is
      added only to a number that lacks one, so giving the '+' or leaving it
      out yields the same link. */
  lemma NumberLines(text: string, k: nat)
    requires k < |Tokens(text)|
    ensures var line := Lines("number", Tokens(text))[k];
            var c := Clean(Tokens(text)[k]);
            && |line| > |Base| && line[..|Base|] == Base && line[|Base|] == '+'
            && (c == [] || c[0] != '+' ==> line == NumberLink("+" + c))
  {
    var toks := Tokens(text);
    var c := Clean(toks[k]);
    LinesAt("number", toks, k);
    assert Lines("number", toks)[k] == NumberLink(c);
    if c == [] || c[0] != '+' {
      assert ("+" + c)[0] == '+' && ("+" + c)[1..] == c;
      assert Base + "+" + c == Base + ("+" + c);
    }
  }

  /** /addlink with its argument text: the number links, or the apology
      when there are none. */
  method AddLinkReply(text: string) returns (reply: string)
    ensures Tokens(text) == [] ==> reply == "No valid numbers found."
    ensures Tokens(text) != [] ==>
      reply == "Here are your number links:\n\n" + JoinLines(Lines("number", Tokens(text)))
  {
    var links := GenerateTmeLinks(text, "number");
    EmptyOutputIff(text, "number");
    if links != [] {
      reply := "Here are your number links:\n\n" + links;
    } else {
      reply := "No valid numbers found.";
    }
  }

  /** /addusername with its argument text. */
  method AddUsernameReply(text: string) returns (reply: string)
    ensures Tokens(text) == [] ==> reply == "No valid usernames found."
    ensures Tokens(text) != [] ==>
      reply == "Here are your username links:\n\n" + JoinLines(Lines("username", Tokens(text)))
  {
    var links := GenerateTmeLinks(text, "username");
    EmptyOutputIff(text, "username");
    if links != [] {
      reply := "Here are your username links:\n\n" + links;
    } else {
      reply := "No valid usernames found.";
    }
  }
}
