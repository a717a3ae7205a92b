/** Saved searches as tab-separated text (app/savedsearches.cpp), and the panel that edits them
    (app/searchpanel.cpp:376-435). */
module SavedSearches {
  import opened Outcomes
  import opened Bytes
  import opened Text

  type i32 = x: int | -0x8000_0000 <= x < 0x8000_0000

  datatype SavedSearch = SavedSearch(
    name: string, text: string, kindIndex: i32, typeIndex: i32, filterText: string, filterNegate: bool,
    filterGlob: bool, filterRegex: bool, onlyComplete: bool, minSources: u64, maxSources: u64)

  // ---------------------------------------------------------------- Fields

  function Replaced(s: string, from: char, to: char): (r: string)
    ensures |r| == |s|
  {
    seq(|s|, i requires 0 <= i < |s| => if s[i] == from then to else s[i])
  }

  /** Tabs and line breaks become blanks. */
  function Clean(s: string): (r: string)
    ensures |r| == |s|
    ensures forall i :: 0 <= i < |s| ==> r[i] == if s[i] in "\t\n\r" then ' ' else s[i]
  {
    seq(|s|, i requires 0 <= i < |s| => if s[i] in "\t\n\r" then ' ' else s[i])
  }

  method CleanText(s: string) returns (out: string)
    ensures out == Clean(s)
  {
    out := s;
    out := Replaced(out, '\t', ' ');
    out := Replaced(out, '\n', ' ');
    out := Replaced(out, '\r', ' ');
  }

  function Digit(d: nat): char
    requires d < 10
  {
    "0123456789"[d]
  }

  function DigitValue(c: char): Option<nat> {
    if '0' <= c <= '9' then Some(c as int - '0' as int) else None
  }

  function Digits(n: nat): (s: string)
    ensures s != "" && forall i :: 0 <= i < |s| ==> '0' <= s[i] <= '9'
  {
    if n < 10 then [Digit(n)] else Digits(n / 10) + [Digit(n % 10)]
  }

  /** QString::number. */
  function Number(v: int): string {
    if v < 0 then "-" + Digits(-v) else Digits(v)
  }

  function ReadDigits(s: string): Option<nat> {
    if s == "" then None
    else
      var last := DigitValue(s[|s| - 1]);
      if |s| == 1 || last.None? then last
      else
        var front := ReadDigits(s[..|s| - 1]);
        if front.None? then None else Some(10 * front.value + last.value)
  }

  function Negated(magnitude: Option<nat>): Option<int> {
    match magnitude
    case Some(n) => var v: int := n; Some(-v)
    case None => None
  }

  /** The number in a text with optional sign, blanks around it ignored. */
  function ReadNumber(s: string): Option<int> {
    var t := Trim(s);
    if t == "" then None
    else if t[0] == '-' then Negated(ReadDigits(t[1..]))
    else ReadDigits(if t[0] == '+' then t[1..] else t)
  }

  /** QString::toInt and toULongLong: 0 for anything that is not a number of the type. */
  function ToInt(s: string): i32 {
    var n := ReadNumber(s);
    if n.Some? && -0x8000_0000 <= n.value < 0x8000_0000 then n.value else 0
  }

  function ToULongLong(s: string): u64 {
    var n := ReadNumber(s);
    if n.Some? && 0 <= n.value < 0x1_0000_0000_0000_0000 then n.value else 0
  }

  lemma {:induction false} DigitsReadBack(n: nat)
    ensures ReadDigits(Digits(n)) == Some(n)
  {
    if n >= 10 {
      DigitsReadBack(n / 10);
      assert Digits(n)[..|Digits(n)| - 1] == Digits(n / 10);
    }
  }

  lemma NotSpaceTrims(s: string)
    requires s != "" && !IsSpace(s[0]) && !IsSpace(s[|s| - 1])
    ensures Trim(s) == s
  {
  }

  lemma {:induction false} NumberReadsBack(v: int)
    ensures ReadNumber(Number(v)) == Some(v) && Trim(Number(v)) == Number(v)
    ensures Plain(Number(v))
    ensures Number(v) != "" && !IsSpace(Number(v)[|Number(v)| - 1])
  {
    hide Digits;
    var n: nat := if v < 0 then -v else v;
    DigitsReadBack(n);
    NotSpaceTrims(Number(v));
    assert v < 0 ==> Number(v)[1..] == Digits(n);
  }

  // ---------------------------------------------------------------- Lines

  function Join(fields: seq<string>): string
    requires fields != []
  {
    if |fields| == 1 then fields[0] else fields[0] + "\t" + Join(fields[1..])
  }

  function Split(s: string): (fields: seq<string>)
    ensures fields != [] && forall i :: 0 <= i < |fields| ==> '\t' !in fields[i]
  {
    if s == "" then [""]
    else
      var rest := Split(s[1..]);
      if s[0] == '\t' then [""] + rest else [[s[0]] + rest[0]] + rest[1..]
  }

  lemma {:induction false} SplitField(field: string, rest: string)
    requires '\t' !in field
    ensures Split(field) == [field]
    ensures Split(field + "\t" + rest) == [field] + Split(rest)
  {
    if field == "" {
      assert "" + "\t" + rest == "\t" + rest && ("\t" + rest)[1..] == rest;
    } else {
      SplitField(field[1..], rest);
      assert (field + "\t" + rest)[1..] == field[1..] + "\t" + rest;
      assert [field[0]] + field[1..] == field;
    }
  }

  lemma {:induction false} SplitJoin(fields: seq<string>)
    requires fields != [] && forall i :: 0 <= i < |fields| ==> '\t' !in fields[i]
    ensures Split(Join(fields)) == fields
  {
    if |fields| == 1 {
      SplitField(fields[0], "");
    } else {
      SplitField(fields[0], Join(fields[1..]));
      SplitJoin(fields[1..]);
    }
  }

  lemma {:induction false} JoinEnds(fields: seq<string>, c: char)
    requires fields != [] && fields[0] != "" && fields[|fields| - 1] != ""
    ensures
      var s, last := Join(fields), fields[|fields| - 1];
      s != "" && s[0] == fields[0][0] && s[|s| - 1] == last[|last| - 1]
    ensures c != '\t' && (forall i :: 0 <= i < |fields| ==> c !in fields[i]) ==> c !in Join(fields)
  {
    JoinLast(fields, c);
  }

  lemma {:induction false} JoinLast(fields: seq<string>, c: char)
    requires fields != [] && fields[|fields| - 1] != ""
    ensures
      var s, last := Join(fields), fields[|fields| - 1];
      s != "" && s[|s| - 1] == last[|last| - 1]
    ensures c != '\t' && (forall i :: 0 <= i < |fields| ==> c !in fields[i]) ==> c !in Join(fields)
  {
    if |fields| > 1 {
      JoinLast(fields[1..], c);
    }
  }

  function Flag(b: bool): string {
    if b then "1" else "0"
  }

  function Fields(s: SavedSearch): (f: seq<string>)
    ensures |f| == 11
  {
    [Clean(s.name), Clean(s.text), Number(s.kindIndex), Number(s.typeIndex), Clean(s.filterText), Flag(s.filterNegate),
     Flag(s.filterGlob), Flag(s.filterRegex), Flag(s.onlyComplete), Number(s.minSources), Number(s.maxSources)]
  }

  function FromFields(f: seq<string>): SavedSearch
    requires |f| == 11
  {
    SavedSearch(f[0], f[1], ToInt(f[2]), ToInt(f[3]), f[4], f[5] == "1", f[6] == "1", f[7] == "1", f[8] == "1",
                ToULongLong(f[9]), ToULongLong(f[10]))
  }

  /** The record on a line, if it has one. */
  function Record(line: string): seq<SavedSearch> {
    var t := Trim(line);
    if t == "" || |Split(t)| != 11 then [] else [FromFields(Split(t))]
  }

  // ---------------------------------------------------------------- The file

  function SaveText(searches: seq<SavedSearch>): string {
    if searches == [] then ""
    else SaveText(searches[..|searches| - 1]) + Join(Fields(searches[|searches| - 1])) + "\n"
  }

  /** Length of the first line, without its line break. */
  function LineLength(text: string): (n: nat)
    ensures n <= |text| && '\n' !in text[..n] && (n < |text| ==> text[n] == '\n')
  {
    if text == "" || text[0] == '\n' then 0 else 1 + LineLength(text[1..])
  }

  function AfterLine(text: string): (rest: string)
    ensures text != "" ==> |rest| < |text|
  {
    var n := LineLength(text);
    if n < |text| then text[n + 1..] else ""
  }

  function LoadText(text: string): seq<SavedSearch>
    decreases |text|
  {
    if text == "" then [] else Record(text[..LineLength(text)]) + LoadText(AfterLine(text))
  }

  method SaveSearches(searches: seq<SavedSearch>) returns (text: string)
    ensures text == SaveText(searches)
  {
    text := "";
    for i := 0 to |searches|
      invariant text == SaveText(searches[..i])
    {
      var s := searches[i];
      assert searches[..i + 1][..i] == searches[..i];
      var name := CleanText(s.name);
      var query := CleanText(s.text);
      var filterText := CleanText(s.filterText);
      var fields := [name, query, Number(s.kindIndex), Number(s.typeIndex), filterText, Flag(s.filterNegate),
                     Flag(s.filterGlob), Flag(s.filterRegex), Flag(s.onlyComplete), Number(s.minSources), Number(s.maxSources)];
      text := text + Join(fields);
      text := text + "\n";
    }
    assert searches[..|searches|] == searches;
  }

  /** Blank lines and lines without exactly eleven fields are skipped. */
  method ReadRecord(line: string) returns (found: seq<SavedSearch>)
    ensures found == Record(line)
  {
    var t := Trim(line);
    if t == "" {
      return [];
    }
    var f := Split(t);
    if |f| != 11 {
      return [];
    }
    found := [FromFields(f)];
  }

  method LoadSearches(text: string) returns (out: seq<SavedSearch>)
    ensures out == LoadText(text)
  {
    hide Record, LoadText, LineLength;
    out := [];
    var rest := text;
    LoadStep(text);
    while rest != ""
      invariant out + LoadText(rest) == LoadText(text)
      decreases |rest|
    {
      var line := rest[..LineLength(rest)];
      LoadStep(rest);
      LoadStep(AfterLine(rest));
      var found := ReadRecord(line);
      assert out + (found + LoadText(AfterLine(rest))) == (out + found) + LoadText(AfterLine(rest));
      out := out + found;
      rest := AfterLine(rest);
    }
    LoadStep("");
    assert out + [] == out;
  }

  lemma LoadStep(text: string)
    ensures text == "" ==> LoadText(text) == []
    ensures text != "" ==> LoadText(text) == Record(text[..LineLength(text)]) + LoadText(AfterLine(text))
  {
  }

  // ---------------------------------------------------------------- Round trips

  function Cleaned(s: SavedSearch): SavedSearch {
    s.(name := Clean(s.name), text := Clean(s.text), filterText := Clean(s.filterText))
  }

  function AllCleaned(searches: seq<SavedSearch>): (r: seq<SavedSearch>)
    ensures |r| == |searches|
    ensures forall i :: 0 <= i < |searches| ==> r[i] == Cleaned(searches[i])
  {
    seq(|searches|, i requires 0 <= i < |searches| => Cleaned(searches[i]))
  }

  /** A name that does not begin with white space, and is not empty. */
  predicate NameOk(s: SavedSearch) {
    s.name != "" && !IsSpace(s.name[0])
  }

  ghost predicate NamesOk(searches: seq<SavedSearch>) {
    forall i :: 0 <= i < |searches| ==> NameOk(searches[i])
  }

  /** Fit to be a field. */
  predicate Plain(field: string) {
    '\t' !in field && '\n' !in field
  }

  lemma FieldsAreClean(s: SavedSearch)
    ensures forall i :: 0 <= i < 11 ==> Plain(Fields(s)[i])
  {
    hide Number, ReadNumber, Clean, IsSpace, Plain, Flag;
    FlagsArePlain();
    CleanHasNoBreaks(s.name);
    CleanHasNoBreaks(s.text);
    CleanHasNoBreaks(s.filterText);
    NumberReadsBack(s.kindIndex);
    NumberReadsBack(s.typeIndex);
    NumberReadsBack(s.minSources);
    NumberReadsBack(s.maxSources);
  }

  lemma LastField(s: SavedSearch)
    ensures Fields(s)[10] != "" && !IsSpace(Fields(s)[10][|Fields(s)[10]| - 1])
  {
    hide Number, ReadNumber, Clean, IsSpace, Plain, Flag;
    NumberReadsBack(s.maxSources);
  }

  lemma CleanHasNoBreaks(s: string)
    ensures Plain(Clean(s))
  {
  }

  lemma FlagsArePlain()
    ensures forall b :: Plain(Flag(b))
  {
  }

  lemma FieldsReadBack(s: SavedSearch)
    ensures FromFields(Fields(s)) == Cleaned(s)
  {
    hide Number, ReadNumber;
    NumberReadsBack(s.kindIndex);
    NumberReadsBack(s.typeIndex);
    NumberReadsBack(s.minSources);
    NumberReadsBack(s.maxSources);
  }

  lemma LineReadsBack(s: SavedSearch)
    requires NameOk(s)
    ensures Record(Join(Fields(s))) == [Cleaned(s)]
  {
    hide Split, Join, Trim, IsSpace, Fields, FromFields;
    var f := Fields(s);
    FieldsAreClean(s);
    LastField(s);
    FieldsReadBack(s);
    NameStart(s);
    SplitJoin(f);
    JoinEnds(f, '\n');
    NotSpaceTrims(Join(f));
  }

  lemma NameStart(s: SavedSearch)
    ensures |Fields(s)| == 11
    ensures NameOk(s) <==> Fields(s)[0] != "" && !IsSpace(Fields(s)[0][0])
    ensures Fields(s)[0] == Cleaned(s).name
  {
  }

  /** Whatever the text, a loaded name is not empty and does not begin with white space, and no text
      field has a tab or a line feed. */
  lemma {:induction false} LoadedRecordsAreOk(text: string)
    ensures NamesOk(LoadText(text))
    ensures forall s :: s in LoadText(text) ==> Plain(s.name) && Plain(s.text) && Plain(s.filterText)
    decreases |text|
  {
    hide Record, Plain, LineLength;
    LoadStep(text);
    if text != "" {
      LoadedRecordsAreOk(AfterLine(text));
      RecordIsOk(text[..LineLength(text)]);
    }
  }

  lemma RecordIsOk(line: string)
    requires '\n' !in line
    ensures NamesOk(Record(line))
    ensures forall s :: s in Record(line) ==> Plain(s.name) && Plain(s.text) && Plain(s.filterText)
  {
    hide FromFields, Trim, IsSpace;
    var t := Trim(line);
    if t != "" && |Split(t)| == 11 {
      TrimmedStart(line);
      assert Split(t)[0] == [t[0]] + Split(t[1..])[0];
      TextsOfFields(Split(t));
      TrimHasNo(line, '\n');
      SplitHasNo(t, '\n');
    }
  }

  lemma TrimmedStart(s: string)
    ensures Trim(s) != "" ==> !IsSpace(Trim(s)[0]) && Trim(s)[0] != '\t'
  {
  }

  lemma TrimHasNo(s: string, c: char)
    requires c !in s
    ensures c !in Trim(s)
  {
  }

  lemma {:induction false} SplitHasNo(s: string, c: char)
    requires c !in s
    ensures forall i :: 0 <= i < |Split(s)| ==> c !in Split(s)[i]
  {
    if s != "" {
      SplitHasNo(s[1..], c);
    }
  }

  lemma TextsOfFields(f: seq<string>)
    requires |f| == 11
    ensures FromFields(f).name == f[0] && FromFields(f).text == f[1] && FromFields(f).filterText == f[4]
  {
  }

  lemma LoadLine(line: string, rest: string)
    requires '\n' !in line
    ensures LoadText(line + "\n" + rest) == Record(line) + LoadText(rest)
  {
    var text := line + "\n" + rest;
    FirstLine(line, rest);
    assert text[..|line|] == line && text[|line| + 1..] == rest;
  }

  lemma {:induction false} FirstLine(line: string, rest: string)
    requires '\n' !in line
    ensures LineLength(line + "\n" + rest) == |line|
  {
    if line != "" {
      FirstLine(line[1..], rest);
      assert (line + "\n" + rest)[1..] == line[1..] + "\n" + rest;
    }
  }

  lemma {:induction false} LoadAppend(searches: seq<SavedSearch>, rest: string)
    requires NamesOk(searches)
    ensures LoadText(SaveText(searches) + rest) == AllCleaned(searches) + LoadText(rest)
  {
    hide LoadText, Join, Fields, Record;
    if searches == [] {
      assert SaveText(searches) + rest == rest;
    } else {
      var front, last := searches[..|searches| - 1], searches[|searches| - 1];
      var line := Join(Fields(last));
      assert SaveText(searches) + rest == SaveText(front) + (line + "\n" + rest);
      LoadAppend(front, line + "\n" + rest);
      NoBreakInLine(last);
      LoadLine(line, rest);
      LineReadsBack(last);
      assert AllCleaned(searches) == AllCleaned(front) + [Cleaned(last)];
    }
  }

  lemma NoBreakInLine(s: SavedSearch)
    ensures '\n' !in Join(Fields(s))
  {
    hide Join, Fields;
    NameStart(s);
    FieldsAreClean(s);
    LastField(s);
    JoinLast(Fields(s), '\n');
  }

  /** Saving and loading a list returns it with only its text fields cleaned, every number and flag
      exact, if and only if no name is empty or begins with white space. */
  lemma {:induction false} SavedListsReload(searches: seq<SavedSearch>)
    ensures LoadText(SaveText(searches)) == AllCleaned(searches) <==> NamesOk(searches)
  {
    hide LoadText, SaveText;
    LoadStep("");
    assert SaveText(searches) + "" == SaveText(searches);
    if NamesOk(searches) {
      LoadAppend(searches, "");
    } else {
      LoadedRecordsAreOk(SaveText(searches));
      CleanedNames(searches);
    }
  }

  lemma CleanedNames(searches: seq<SavedSearch>)
    ensures NamesOk(AllCleaned(searches)) <==> NamesOk(searches)
  {
    forall i | 0 <= i < |searches| ensures NameOk(AllCleaned(searches)[i]) <==> NameOk(searches[i]) {
      NameStart(searches[i]);
    }
  }

  /** No text field holds a tab, a line feed or a carriage return. */
  ghost predicate TextsClean(searches: seq<SavedSearch>) {
    forall i :: 0 <= i < |searches| ==>
      NoBreaks(searches[i].name) && NoBreaks(searches[i].text) && NoBreaks(searches[i].filterText)
  }

  predicate NoBreaks(s: string) {
    '\t' !in s && '\n' !in s && '\r' !in s
  }

  lemma CleanIsIdentity(s: string)
    ensures Clean(s) == s <==> NoBreaks(s)
  {
    assert forall i :: 0 <= i < |s| ==> (Clean(s)[i] == s[i] <==> s[i] != '\t' && s[i] != '\n' && s[i] != '\r');
  }

  lemma {:induction false} AllCleanedIsIdentity(searches: seq<SavedSearch>)
    ensures AllCleaned(searches) == searches <==> TextsClean(searches)
  {
    hide Clean, NoBreaks;
    forall i | 0 <= i < |searches|
      ensures Cleaned(searches[i]) == searches[i] <==>
                NoBreaks(searches[i].name) && NoBreaks(searches[i].text) && NoBreaks(searches[i].filterText)
    {
      CleanIsIdentity(searches[i].name);
      CleanIsIdentity(searches[i].text);
      CleanIsIdentity(searches[i].filterText);
    }
    assert AllCleaned(searches) == searches <==> forall i :: 0 <= i < |searches| ==> Cleaned(searches[i]) == searches[i];
  }

  /** A list comes back as it was if and only if, beyond the names, its text fields need no cleaning. */
  lemma {:induction false} ReloadsUnchanged(searches: seq<SavedSearch>)
    ensures LoadText(SaveText(searches)) == searches <==> NamesOk(searches) && TextsClean(searches)
  {
    hide LoadText, SaveText, AllCleaned, NameOk, NoBreaks;
    SavedListsReload(searches);
    LoadedRecordsAreOk(SaveText(searches));
    AllCleanedIsIdentity(searches);
  }

  lemma {:induction false} SaveCleaned(searches: seq<SavedSearch>)
    ensures SaveText(AllCleaned(searches)) == SaveText(searches)
  {
    hide Join;
    if searches != [] {
      var front, last := searches[..|searches| - 1], searches[|searches| - 1];
      SaveCleaned(front);
      assert AllCleaned(searches)[..|searches| - 1] == AllCleaned(front);
      assert Clean(Clean(last.name)) == Clean(last.name) && Clean(Clean(last.text)) == Clean(last.text)
          && Clean(Clean(last.filterText)) == Clean(last.filterText);
      assert Fields(Cleaned(last)) == Fields(last);
    }
  }

  /** Texts made of whole lines are equal only if their last lines are. */
  lemma LastLineDecides(a: string, b: string, x: string, y: string)
    requires '\n' !in x && '\n' !in y
    requires (a == "" || a[|a| - 1] == '\n') && (b == "" || b[|b| - 1] == '\n')
    requires a + x + "\n" == b + y + "\n"
    ensures a == b && x == y
  {
    var s := a + x;
    assert s == (a + x + "\n")[..|a| + |x|] == b + y;
    assert forall j :: |a| <= j < |s| ==> s[j] == x[j - |a|];
    assert forall j :: |b| <= j < |s| ==> s[j] == y[j - |b|];
    assert a != "" ==> s[|a| - 1] == a[|a| - 1];
    assert b != "" ==> s[|b| - 1] == b[|b| - 1];
    assert |a| == |b|;
    assert a == s[..|a|] && x == s[|a|..] && b == s[..|b|] && y == s[|b|..];
  }

  lemma {:induction false} SaveEnds(searches: seq<SavedSearch>)
    ensures var t := SaveText(searches); (t == "" <==> searches == []) && (t != "" ==> t[|t| - 1] == '\n')
  {
    hide Join, Fields;
  }

  /** Two lists are saved as the same text if and only if they are the same after cleaning. */
  lemma {:induction false} TextDeterminesList(xs: seq<SavedSearch>, ys: seq<SavedSearch>)
    ensures SaveText(xs) == SaveText(ys) <==> AllCleaned(xs) == AllCleaned(ys)
    decreases |xs|
  {
    hide Join, Fields, Clean, Cleaned;
    SaveCleaned(xs);
    SaveCleaned(ys);
    if SaveText(xs) == SaveText(ys) {
      SaveEnds(xs);
      SaveEnds(ys);
      if xs == [] {
        assert AllCleaned(xs) == AllCleaned(ys);
      } else {
        var n, m := |xs| - 1, |ys| - 1;
        var x, y := xs[n], ys[m];
        SaveEnds(xs[..n]);
        SaveEnds(ys[..m]);
        NoBreakInLine(x);
        NoBreakInLine(y);
        LastLineDecides(SaveText(xs[..n]), SaveText(ys[..m]), Join(Fields(x)), Join(Fields(y)));
        TextDeterminesList(xs[..n], ys[..m]);
        LineDeterminesSearch(x, y);
        assert AllCleaned(xs) == AllCleaned(xs[..n]) + [Cleaned(x)];
        assert AllCleaned(ys) == AllCleaned(ys[..m]) + [Cleaned(y)];
      }
    }
  }

  lemma LineDeterminesSearch(x: SavedSearch, y: SavedSearch)
    requires Join(Fields(x)) == Join(Fields(y))
    ensures Cleaned(x) == Cleaned(y)
  {
    hide Join, Split, Fields, FromFields, Cleaned;
    FieldsAreClean(x);
    FieldsAreClean(y);
    SplitJoin(Fields(x));
    SplitJoin(Fields(y));
    FieldsReadBack(x);
    FieldsReadBack(y);
  }

  /** The text of a list is reproduced by loading and saving it if and only if the names are fit. */
  lemma {:induction false} SavedTextIsStable(searches: seq<SavedSearch>)
    ensures SaveText(LoadText(SaveText(searches))) == SaveText(searches) <==> NamesOk(searches)
  {
    hide LoadText, SaveText, AllCleaned, NameOk;
    var again := LoadText(SaveText(searches));
    LoadedRecordsAreOk(SaveText(searches));
    SavedListsReload(searches);
    TextDeterminesList(again, searches);
    CleanedNames(again);
    CleanedNames(searches);
    SaveCleaned(searches);
  }

  /** Whatever text is in the file, loading and saving it reaches a text that stays. The records come
      back cleaned, and unchanged exactly when no text field loaded holds a carriage return. */
  lemma {:induction false} AnyFileNormalizes(text: string)
    ensures
      var searches := LoadText(text);
      && LoadText(SaveText(searches)) == AllCleaned(searches)
      && SaveText(LoadText(SaveText(searches))) == SaveText(searches)
      && (LoadText(SaveText(searches)) == searches <==>
            forall i :: 0 <= i < |searches| ==>
              '\r' !in searches[i].name && '\r' !in searches[i].text && '\r' !in searches[i].filterText)
  {
    hide LoadText, SaveText, NameOk, AllCleaned;
    var searches := LoadText(text);
    LoadedRecordsAreOk(text);
    SavedListsReload(searches);
    SavedTextIsStable(searches);
    ReloadsUnchanged(searches);
    forall i | 0 <= i < |searches| ensures Plain(searches[i].name) && Plain(searches[i].text) && Plain(searches[i].filterText) {
      assert searches[i] in searches;
    }
  }

  // ---------------------------------------------------------------- The panel

  /** The saved list with `s` in place of the first search of its name, or at the end. */
  function Stored(saved: seq<SavedSearch>, s: SavedSearch): (r: seq<SavedSearch>)
    ensures s in r
    ensures NamesOk(saved) && NameOk(s) ==> NamesOk(r)
  {
    if saved == [] then [s]
    else if saved[0].name == s.name then [s] + saved[1..]
    else [saved[0]] + Stored(saved[1..], s)
  }

  lemma {:induction false} StoredAt(saved: seq<SavedSearch>, s: SavedSearch, i: nat)
    requires i <= |saved|
    requires forall j :: 0 <= j < i ==> saved[j].name != s.name
    requires i < |saved| ==> saved[i].name == s.name
    ensures Stored(saved, s) == if i < |saved| then saved[i := s] else saved + [s]
  {
    if saved != [] {
      if i == 0 {
        assert [s] + saved[1..] == saved[0 := s];
      } else {
        StoredAt(saved[1..], s, i - 1);
      }
    }
  }

  class SearchPanel {
    var saved: seq<SavedSearch>
    var file: string

    constructor (text: string)
      ensures Valid() && file == text && saved == LoadText(text)
    {
      file, saved := text, [];
      new;
      saved := LoadSearches(text);
      LoadedRecordsAreOk(text);
    }

    ghost predicate Valid()
      reads this
    {
      NamesOk(saved)
    }

    /** `form` is what the query form holds. The file loads back as the list shown, its text fields
        cleaned. */
    method OnSaveSearch(name: string, form: SavedSearch)
      requires Valid()
      modifies this
      ensures Valid()
      ensures Trim(name) == "" ==> saved == old(saved) && file == old(file)
      ensures Trim(name) != "" ==> saved == Stored(old(saved), form.(name := Trim(name)))
                                   && file == SaveText(saved) && LoadText(file) == AllCleaned(saved)
    {
      hide Stored, LoadText, Trim;
      if Trim(name) == "" {
        return;
      }
      var s := form.(name := Trim(name));
      var i := 0;
      while i < |saved| && saved[i].name != s.name
        invariant 0 <= i <= |saved|
        invariant forall j :: 0 <= j < i ==> saved[j].name != s.name
      {
        i := i + 1;
      }
      StoredAt(saved, s, i);
      if i < |saved| {
        saved := saved[i := s];
      } else {
        saved := saved + [s];
      }
      SavedListsReload(saved);
      file := SaveSearches(saved);
    }

    method OnDeleteSaved(idx: int)
      requires Valid()
      modifies this
      ensures Valid()
      ensures !(0 <= idx < |old(saved)|) ==> saved == old(saved) && file == old(file)
      ensures 0 <= idx < |old(saved)| ==> saved == old(saved)[..idx] + old(saved)[idx + 1..]
                                          && file == SaveText(saved) && LoadText(file) == AllCleaned(saved)
    {
      if idx < 0 || idx >= |saved| {
        return;
      }
      saved := saved[..idx] + saved[idx + 1..];
      SavedListsReload(saved);
      file := SaveSearches(saved);
    }
  }
}
