/** The saved-search file read field by field: which lines are records at all, which field becomes
    what, and what numbers that cannot be read become. */
module SavedFormat {
  import opened Outcomes
  import opened Bytes
  import opened Text
  import opened SavedSearches

  function Tabs(s: string): nat {
    if s == "" then 0 else (if s[0] == '\t' then 1 else 0) + Tabs(s[1..])
  }

  lemma {:induction false} SplitCounts(s: string)
    ensures |Split(s)| == 1 + Tabs(s)
    ensures Join(Split(s)) == s
  {
    if s != "" {
      SplitCounts(s[1..]);
      var rest := Split(s[1..]);
      if s[0] == '\t' {
        assert ([""] + rest)[1..] == rest;
        assert "" + "\t" + s[1..] == s;
      } else {
        JoinHead(s[0], rest);
        assert [s[0]] + s[1..] == s;
      }
    }
  }

  lemma JoinHead(c: char, fields: seq<string>)
    requires fields != []
    ensures Join([[c] + fields[0]] + fields[1..]) == [c] + Join(fields)
  {
    var longer := [[c] + fields[0]] + fields[1..];
    if |fields| > 1 {
      assert longer[1..] == fields[1..];
      assert [c] + fields[0] + "\t" + Join(fields[1..]) == [c] + (fields[0] + "\t" + Join(fields[1..]));
    }
  }

  /** A line is a record exactly if it has ten tabs once the blanks around it are gone; the fields between
      the tabs are name, text, kind and type, filter text, the four flags and the two bounds, a flag
      being set by `1` alone. */
  lemma {:induction false} RecordMeans(line: string)
    ensures |Record(line)| == if Tabs(Trim(line)) == 10 then 1 else 0
    ensures Tabs(Trim(line)) == 10 ==>
              exists f: seq<string> ::
                && |f| == 11 && Join(f) == Trim(line) && (forall i :: 0 <= i < 11 ==> '\t' !in f[i])
                && Record(line)[0] ==
                   SavedSearch(f[0], f[1], ToInt(f[2]), ToInt(f[3]), f[4], f[5] == "1", f[6] == "1", f[7] == "1",
                               f[8] == "1", ToULongLong(f[9]), ToULongLong(f[10]))
  {
    hide Split, Join, Trim, ToInt, ToULongLong;
    SplitCounts(Trim(line));
    NoTabs();
    if Tabs(Trim(line)) == 10 {
      var f := Split(Trim(line));
      assert |f| == 11 && Join(f) == Trim(line);
    }
  }

  lemma NoTabs()
    ensures Tabs("") == 0
  {
  }

  predicate AllDigits(s: string) {
    forall i :: 0 <= i < |s| ==> '0' <= s[i] <= '9'
  }

  /** Digits read from the left, behind the value read so far. */
  function Decimal(s: string, soFar: nat): nat
    requires AllDigits(s)
  {
    if s == "" then soFar else Decimal(s[1..], 10 * soFar + (s[0] as int - '0' as int))
  }

  lemma {:induction false} DecimalLast(s: string, soFar: nat, c: char)
    requires AllDigits(s) && '0' <= c <= '9'
    ensures AllDigits(s + [c]) && Decimal(s + [c], soFar) == 10 * Decimal(s, soFar) + (c as int - '0' as int)
  {
    if s == "" {
      assert "" + [c] == [c] && [c][1..] == "";
    } else {
      assert (s + [c])[1..] == s[1..] + [c];
      DecimalLast(s[1..], 10 * soFar + (s[0] as int - '0' as int), c);
    }
  }

  lemma {:induction false} DigitsMean(s: string)
    ensures ReadDigits(s).Some? <==> s != "" && AllDigits(s)
    ensures s != "" && AllDigits(s) ==> ReadDigits(s) == Some(Decimal(s, 0))
  {
    if s != "" {
      var front, last := s[..|s| - 1], s[|s| - 1];
      assert s == front + [last];
      DigitsMean(front);
      if AllDigits(s) {
        assert AllDigits(front);
        DecimalLast(front, 0, last);
      }
    }
  }

  /** An optional sign and at least one digit. */
  ghost predicate Numeral(t: string, sign: string, digits: string) {
    t == sign + digits && (sign == "" || sign == "+" || sign == "-") && digits != "" && AllDigits(digits)
  }

  function Signed(sign: string, digits: string): int
    requires AllDigits(digits)
  {
    var n: int := Decimal(digits, 0);
    if sign == "-" then -n else n
  }

  /** What a numeric field is read as: the number it spells, blanks around it aside, if it is an optional
      sign and digits and the number fits the type, and 0 in every other case. */
  lemma {:induction false} NumbersMean(s: string)
    ensures forall sign, digits :: Numeral(Trim(s), sign, digits) ==>
              var v := Signed(sign, digits);
              && ToInt(s) == (if -0x8000_0000 <= v < 0x8000_0000 then v else 0)
              && ToULongLong(s) == (if 0 <= v < 0x1_0000_0000_0000_0000 then v else 0)
    ensures (forall sign, digits :: !Numeral(Trim(s), sign, digits)) ==> ToInt(s) == 0 && ToULongLong(s) == 0
  {
    hide Trim, ReadDigits, Decimal;
    var t := Trim(s);
    forall sign, digits | Numeral(t, sign, digits)
      ensures ReadNumber(s) == Some(Signed(sign, digits))
    {
      DigitsMean(digits);
      assert digits == if sign == "" then t else t[1..];
    }
    if ReadNumber(s).Some? {
      var sign := if t[0] == '-' then "-" else if t[0] == '+' then "+" else "";
      var digits := if sign == "" then t else t[1..];
      DigitsMean(digits);
      assert Numeral(t, sign, digits);
    }
  }

  // ---------------------------------------------------------------- What is written

  lemma {:induction false} DigitsWritten(n: nat)
    ensures AllDigits(Digits(n)) && Decimal(Digits(n), 0) == n
    ensures n > 0 ==> Digits(n)[0] != '0'
    ensures n < 10 ==> |Digits(n)| == 1
  {
    DigitsReadBack(n);
    DigitsMean(Digits(n));
    if n >= 10 {
      DigitsWritten(n / 10);
    }
  }

  /** A number is written in the shortest way: a minus only if it is negative, no zero in front. */
  ghost predicate WrittenAs(t: string, v: int) {
    exists digits ::
      && Numeral(t, if v < 0 then "-" else "", digits) && Decimal(digits, 0) == (if v < 0 then -v else v)
      && (digits[0] == '0' ==> |digits| == 1)
  }

  lemma NumberWritten(v: int)
    ensures WrittenAs(Number(v), v)
  {
    hide Digits, Decimal;
    var n: nat := if v < 0 then -v else v;
    DigitsWritten(n);
    assert v >= 0 ==> "" + Digits(n) == Digits(n);
    assert Numeral(Number(v), if v < 0 then "-" else "", Digits(n));
  }

  /** A line of the file, between its tabs: the text fields cleaned, each number in its shortest form, and
      for each flag `1` if it is set and `0` if not. */
  lemma {:induction false} LineMeans(s: SavedSearch)
    ensures
      var f := Split(Join(Fields(s)));
      && |f| == 11
      && f[0] == Clean(s.name) && f[1] == Clean(s.text) && f[4] == Clean(s.filterText)
      && WrittenAs(f[2], s.kindIndex) && WrittenAs(f[3], s.typeIndex)
      && WrittenAs(f[9], s.minSources) && WrittenAs(f[10], s.maxSources)
      && f[5] == (if s.filterNegate then "1" else "0") && f[6] == (if s.filterGlob then "1" else "0")
      && f[7] == (if s.filterRegex then "1" else "0") && f[8] == (if s.onlyComplete then "1" else "0")
  {
    hide Number, WrittenAs, Split, Join, Clean;
    FieldsAreClean(s);
    SplitJoin(Fields(s));
    NumberWritten(s.kindIndex);
    NumberWritten(s.typeIndex);
    NumberWritten(s.minSources);
    NumberWritten(s.maxSources);
  }
}
