/** Globs and the regular expressions they are translated to (app/searchfilterproxy.cpp:7-40).
    `same` is the case-insensitive comparison of characters; nothing is assumed of it. */
module Glob {
  import opened Outcomes

  type Folding = (char, char) -> bool

  predicate IsMeta(c: char) {
    c in {'.', '+', '(', ')', '|', '[', ']', '{', '}', '^', '$', '\\'}
  }

  // ---------------------------------------------------------------- The translation

  function Piece(c: char): string {
    if c == '*' then ".*" else if c == '?' then "." else if IsMeta(c) then ['\\', c] else [c]
  }

  function Pieces(glob: string): string {
    if glob == "" then "" else Pieces(glob[..|glob| - 1]) + Piece(glob[|glob| - 1])
  }

  function RegexOf(glob: string): string {
    "^" + Pieces(glob) + "$"
  }

  method GlobToRegex(glob: string) returns (re: string)
    ensures re == RegexOf(glob)
  {
    re := "^";
    for i := 0 to |glob|
      invariant re == "^" + Pieces(glob[..i])
    {
      var ch := glob[i];
      assert glob[..i + 1][..i] == glob[..i];
      match ch
      case '*' => re := re + ".*";
      case '?' => re := re + ".";
      case _ =>
        if ch in {'.', '+', '(', ')', '|', '[', ']', '{', '}', '^', '$', '\\'} {
          re := re + "\\" + [ch];
        } else {
          re := re + [ch];
        }
    }
    assert glob[..|glob|] == glob;
    re := re + "$";
  }

  // ---------------------------------------------------------------- What a glob means

  /** Any run for `*`, any one character for `?`, every other character itself. Whether a wildcard
      may stand for a line break is the parameter `breaks`. */
  ghost predicate GlobMatches(glob: string, name: string, same: Folding, breaks: bool) {
    if glob == "" then name == ""
    else if glob[0] == '*' then
      exists k :: 0 <= k <= |name| && (breaks || '\n' !in name[..k]) && GlobMatches(glob[1..], name[k..], same, breaks)
    else
      && name != ""
      && (if glob[0] == '?' then breaks || name[0] != '\n' else same(glob[0], name[0]))
      && GlobMatches(glob[1..], name[1..], same, breaks)
  }

  lemma {:induction false} BreaksDoNotMatter(glob: string, name: string, same: Folding)
    requires '\n' !in name
    ensures GlobMatches(glob, name, same, true) <==> GlobMatches(glob, name, same, false)
  {
    if glob != "" {
      forall k | 0 <= k <= |name|
        ensures '\n' !in name[..k]
        ensures GlobMatches(glob[1..], name[k..], same, true) <==> GlobMatches(glob[1..], name[k..], same, false)
      {
        BreaksDoNotMatter(glob[1..], name[k..], same);
      }
    }
  }

  // ---------------------------------------------------------------- What a regular expression means

  datatype Atom = AnyChar | Literal(c: char)

  /** The fragment of PCRE that is needed here. */
  datatype Item = One(a: Atom) | Star(a: Atom) | Start | End

  /** Behind a backslash, letters and digits have meanings of their own; other characters stand for
      themselves. */
  predicate IsWordChar(c: char) {
    'a' <= c <= 'z' || 'A' <= c <= 'Z' || '0' <= c <= '9' || c == '_'
  }

  /** The syntax of the fragment; text with any other operator in it is not read. */
  function ParseRegex(re: string): Option<seq<Item>>
    decreases |re|, 0
  {
    if re == "" then Some([])
    else if re[0] == '^' then Before(Start, ParseRegex(re[1..]))
    else if re[0] == '$' then Before(End, ParseRegex(re[1..]))
    else if re[0] in {'*', '+', '?', '(', ')', '|', '[', ']', '{', '}'} then None
    else if re[0] == '\\' then
      if |re| < 2 || IsWordChar(re[1]) then None else Repeated(Literal(re[1]), re[2..])
    else if re[0] == '.' then Repeated(AnyChar, re[1..])
    else Repeated(Literal(re[0]), re[1..])
  }

  function Before(item: Item, rest: Option<seq<Item>>): Option<seq<Item>> {
    if rest.Some? then Some([item] + rest.value) else None
  }

  /** An atom, starred if a star follows, and the rest. */
  function Repeated(a: Atom, re: string): Option<seq<Item>>
    decreases |re|, 1
  {
    if re != "" && re[0] == '*' then Before(Star(a), ParseRegex(re[1..])) else Before(One(a), ParseRegex(re))
  }

  predicate AtomMatches(a: Atom, c: char, same: Folding) {
    match a
    case AnyChar => c != '\n'
    case Literal(x) => same(x, c)
  }

  /** `$` matches at the end and before a final line break. */
  predicate IsEnd(s: string, i: nat) {
    i == |s| || (i + 1 == |s| && s[i] == '\n')
  }

  predicate MatchesFrom(items: seq<Item>, s: string, i: nat, same: Folding)
    requires i <= |s|
    decreases |items|, |s| - i
  {
    if items == [] then true
    else
      match items[0]
      case Start => i == 0 && MatchesFrom(items[1..], s, i, same)
      case End => IsEnd(s, i) && MatchesFrom(items[1..], s, i, same)
      case One(a) => i < |s| && AtomMatches(a, s[i], same) && MatchesFrom(items[1..], s, i + 1, same)
      case Star(a) =>
        MatchesFrom(items[1..], s, i, same) || (i < |s| && AtomMatches(a, s[i], same) && MatchesFrom(items, s, i + 1, same))
  }

  /** The expression matches somewhere in `s`. */
  ghost predicate HasMatch(items: seq<Item>, s: string, same: Folding) {
    exists i :: 0 <= i <= |s| && MatchesFrom(items, s, i, same)
  }

  // ---------------------------------------------------------------- The translation keeps the meaning

  function ItemOf(c: char): Item {
    if c == '*' then Star(AnyChar) else if c == '?' then One(AnyChar) else One(Literal(c))
  }

  function Items(glob: string): seq<Item> {
    if glob == "" then [] else [ItemOf(glob[0])] + Items(glob[1..])
  }

  lemma {:induction false} PiecesFront(glob: string)
    requires glob != ""
    ensures Pieces(glob) == Piece(glob[0]) + Pieces(glob[1..])
  {
    hide Piece;
    var front, last := glob[..|glob| - 1], glob[|glob| - 1];
    if |glob| == 1 {
      assert front == "" && glob[1..] == "";
    } else {
      PiecesFront(front);
      assert glob[1..][..|glob| - 2] == front[1..];
      assert Pieces(glob[1..]) == Pieces(front[1..]) + Piece(last);
    }
  }

  lemma PieceParses(c: char, rest: string)
    requires rest != "" && rest[0] != '*'
    ensures ParseRegex(Piece(c) + rest) == Before(ItemOf(c), ParseRegex(rest))
  {
    var re := Piece(c) + rest;
    if c == '*' {
      assert re[1..] == "*" + rest && ("*" + rest)[1..] == rest;
    } else if IsMeta(c) {
      assert re[2..] == rest;
    } else {
      assert re[1..] == rest;
    }
  }

  /** The translation of any glob is in the fragment, with one item for each glob character. */
  lemma {:induction false} BodyParses(glob: string)
    ensures (Pieces(glob) + "$")[0] != '*'
    ensures ParseRegex(Pieces(glob) + "$") == Some(Items(glob) + [End])
  {
    if glob == "" {
      assert "" + "$" == "$" && "$"[1..] == "" && ParseRegex("") == Some([]);
      assert [End] + [] == [End] == [] + [End];
    } else {
      BodyParses(glob[1..]);
      PiecesFront(glob);
      var rest := Pieces(glob[1..]) + "$";
      assert Pieces(glob) + "$" == Piece(glob[0]) + rest;
      PieceParses(glob[0], rest);
      assert [ItemOf(glob[0])] + (Items(glob[1..]) + [End]) == Items(glob) + [End];
    }
  }

  /** A star of any characters is a run without line breaks. */
  lemma {:induction false} StarIsRun(rest: seq<Item>, s: string, i: nat, same: Folding)
    requires i <= |s|
    ensures MatchesFrom([Star(AnyChar)] + rest, s, i, same) <==>
              exists k :: i <= k <= |s| && '\n' !in s[i..k] && MatchesFrom(rest, s, k, same)
    decreases |s| - i
  {
    var items := [Star(AnyChar)] + rest;
    assert items[1..] == rest;
    if MatchesFrom(rest, s, i, same) {
      assert '\n' !in s[i..i];
    }
    if i < |s| {
      StarIsRun(rest, s, i + 1, same);
      forall k | i < k <= |s| ensures '\n' !in s[i..k] <==> s[i] != '\n' && '\n' !in s[i + 1..k] {
        assert s[i..k] == [s[i]] + s[i + 1..k];
      }
    }
  }

  /** `s[i..e]` matches the glob, and `$` matches at `e`. */
  ghost predicate MatchesTo(glob: string, s: string, i: nat, e: nat, same: Folding) {
    i <= e <= |s| && IsEnd(s, e) && GlobMatches(glob, s[i..e], same, false)
  }

  lemma {:induction false} ItemsMatch(glob: string, s: string, i: nat, same: Folding)
    requires i <= |s|
    ensures MatchesFrom(Items(glob) + [End], s, i, same) <==> exists e: nat :: MatchesTo(glob, s, i, e, same)
    decreases |glob|
  {
    if glob == "" {
      assert Items(glob) + [End] == [End] && [End][1..] == [];
      assert MatchesTo(glob, s, i, i, same) <==> IsEnd(s, i);
    } else {
      var rest := Items(glob[1..]) + [End];
      var items := [ItemOf(glob[0])] + rest;
      assert Items(glob) + [End] == items && items[1..] == rest;
      if glob[0] == '*' {
        StarItemMatches(glob, s, i, same);
      } else {
        if i < |s| {
          ItemsMatch(glob[1..], s, i + 1, same);
        }
        var atom := ItemOf(glob[0]).a;
        assert MatchesFrom(items, s, i, same) <==>
                 i < |s| && AtomMatches(atom, s[i], same) && MatchesFrom(rest, s, i + 1, same);
        if e: nat :| MatchesTo(glob, s, i, e, same) {
          OneInSlice(glob, s, i, e, same);
        }
        var next := i + 1;
        if e: nat :| i < |s| && AtomMatches(atom, s[i], same) && MatchesTo(glob[1..], s, next, e, same) {
          OneInSlice(glob, s, i, e, same);
        }
      }
    }
  }

  lemma OneInSlice(glob: string, s: string, i: nat, e: nat, same: Folding)
    requires i <= |s| && glob != "" && glob[0] != '*'
    ensures MatchesTo(glob, s, i, e, same) <==>
              i < |s| && AtomMatches(ItemOf(glob[0]).a, s[i], same) && MatchesTo(glob[1..], s, i + 1, e, same)
  {
    if i < e <= |s| {
      assert s[i..e][1..] == s[i + 1..e] && s[i..e][0] == s[i];
    }
  }

  lemma {:induction false} StarItemMatches(glob: string, s: string, i: nat, same: Folding)
    requires i <= |s| && glob != "" && glob[0] == '*'
    ensures MatchesFrom([Star(AnyChar)] + (Items(glob[1..]) + [End]), s, i, same) <==>
              exists e: nat :: MatchesTo(glob, s, i, e, same)
    decreases |glob|, 0
  {
    var rest := Items(glob[1..]) + [End];
    StarIsRun(rest, s, i, same);
    forall k | i <= k <= |s|
      ensures MatchesFrom(rest, s, k, same) <==> exists e: nat :: MatchesTo(glob[1..], s, k, e, same)
    {
      ItemsMatch(glob[1..], s, k, same);
    }
    forall e: nat | i <= e <= |s| && IsEnd(s, e)
      ensures MatchesTo(glob, s, i, e, same) <==>
                exists k :: i <= k <= e && '\n' !in s[i..k] && MatchesTo(glob[1..], s, k, e, same)
    {
      StarInSlice(glob, s, i, e, same);
    }
  }

  lemma StarInSlice(glob: string, s: string, i: nat, e: nat, same: Folding)
    requires i <= e <= |s| && IsEnd(s, e) && glob != "" && glob[0] == '*'
    ensures MatchesTo(glob, s, i, e, same) <==>
              exists k :: i <= k <= e && '\n' !in s[i..k] && MatchesTo(glob[1..], s, k, e, same)
  {
    hide IsEnd;
    var t := s[i..e];
    forall k | i <= k <= e ensures t[..k - i] == s[i..k] && t[k - i..] == s[k..e] {
    }
    if MatchesTo(glob, s, i, e, same) {
      var j :| 0 <= j <= |t| && '\n' !in t[..j] && GlobMatches(glob[1..], t[j..], same, false);
      assert MatchesTo(glob[1..], s, i + j, e, same);
    }
    if k :| i <= k <= e && '\n' !in s[i..k] && MatchesTo(glob[1..], s, k, e, same) {
      assert GlobMatches(glob[1..], t[k - i..], same, false);
    }
  }

  /** For every glob and every name: the translation is a regular expression of the fragment, and
      it matches the name exactly when the glob matches it, wildcards standing for anything but line
      breaks and one final line break being overlooked. */
  lemma {:induction false} GlobMeansRegex(glob: string, name: string, same: Folding)
    ensures ParseRegex(RegexOf(glob)).Some?
    ensures
      var n := |name|;
      HasMatch(ParseRegex(RegexOf(glob)).value, name, same) <==>
        || GlobMatches(glob, name, same, false)
        || (n > 0 && name[n - 1] == '\n' && GlobMatches(glob, name[..n - 1], same, false))
  {
    hide GlobMatches;
    var n := |name|;
    BodyParses(glob);
    var body := Pieces(glob) + "$";
    assert RegexOf(glob) == "^" + body && RegexOf(glob)[1..] == body;
    var items := [Start] + (Items(glob) + [End]);
    assert ParseRegex(RegexOf(glob)) == Some(items);
    assert items[1..] == Items(glob) + [End];
    assert HasMatch(items, name, same) <==> MatchesFrom(items, name, 0, same);
    ItemsMatch(glob, name, 0, same);
    assert name[0..n] == name;
    assert MatchesTo(glob, name, 0, n, same) <==> GlobMatches(glob, name, same, false);
    if n > 0 {
      assert MatchesTo(glob, name, 0, n - 1, same) <==> name[n - 1] == '\n' && GlobMatches(glob, name[..n - 1], same, false);
    }
    assert forall e: nat :: MatchesTo(glob, name, 0, e, same) ==> e == n || e == n - 1;
  }

  ghost predicate RegexMatches(glob: string, name: string, same: Folding)
    requires ParseRegex(RegexOf(glob)).Some?
  {
    HasMatch(ParseRegex(RegexOf(glob)).value, name, same)
  }

  /** The translations of all globs match a name exactly when the globs do, if and only if the name
      has no line break. */
  lemma {:induction false} GlobMeansRegexOnLines(name: string, same: Folding)
    ensures forall glob :: ParseRegex(RegexOf(glob)).Some?
    ensures (forall glob :: RegexMatches(glob, name, same) <==> GlobMatches(glob, name, same, true)) <==> '\n' !in name
  {
    hide GlobMatches, HasMatch, RegexOf, ParseRegex;
    forall glob
      ensures ParseRegex(RegexOf(glob)).Some?
      ensures '\n' !in name ==> (RegexMatches(glob, name, same) <==> GlobMatches(glob, name, same, true))
    {
      GlobMeansRegex(glob, name, same);
      if '\n' !in name {
        BreaksDoNotMatter(glob, name, same);
      }
    }
    if '\n' in name {
      var glob := DifferingGlob(name, same);
    }
  }

  /** For a break inside the name it is `*`, which does not reach over it; for a break at the end only,
      one `?` for each character before it, since `$` overlooks the break. */
  lemma {:induction false} DifferingGlob(name: string, same: Folding) returns (glob: string)
    requires '\n' in name
    ensures ParseRegex(RegexOf(glob)).Some?
    ensures RegexMatches(glob, name, same) != GlobMatches(glob, name, same, true)
  {
    var n := |name|;
    var front := name[..n - 1];
    assert name == front + [name[n - 1]];
    if '\n' in front {
      glob := "*";
      StarStopsAtLineBreaks(name, same);
    } else {
      glob := Questions(n - 1);
      QuestionsMatch(n - 1, front, same, false);
      QuestionsMatch(n - 1, name, same, true);
      GlobMeansRegex(glob, name, same);
    }
  }

  /** A glob of `*` alone matches every name, its translation none with a line break before the end. */
  lemma {:induction false} StarStopsAtLineBreaks(name: string, same: Folding)
    requires name != "" && '\n' in name[..|name| - 1]
    ensures GlobMatches("*", name, same, true)
    ensures ParseRegex(RegexOf("*")).Some? && !RegexMatches("*", name, same)
  {
    hide GlobMatches, HasMatch, RegexOf, ParseRegex;
    var front := name[..|name| - 1];
    assert name == front + [name[|name| - 1]];
    StarMatchesLines(name, same);
    StarMatchesLines(front, same);
    GlobMeansRegex("*", name, same);
  }

  lemma StarMatchesLines(name: string, same: Folding)
    ensures GlobMatches("*", name, same, true)
    ensures GlobMatches("*", name, same, false) <==> '\n' !in name
  {
    var n := |name|;
    assert "*"[1..] == "" && name[n..] == "" && name[..n] == name;
    assert GlobMatches("", name[n..], same, true) && GlobMatches("", name[n..], same, false);
    assert forall k :: 0 <= k <= n && name[k..] == "" ==> k == n;
  }

  function Questions(n: nat): string {
    if n == 0 then "" else "?" + Questions(n - 1)
  }

  lemma {:induction false} QuestionsMatch(n: nat, name: string, same: Folding, breaks: bool)
    requires breaks || '\n' !in name
    ensures GlobMatches(Questions(n), name, same, breaks) <==> |name| == n
  {
    if n != 0 {
      assert Questions(n)[1..] == Questions(n - 1);
      if name != "" {
        QuestionsMatch(n - 1, name[1..], same, breaks);
      }
    }
  }
}
