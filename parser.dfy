/** Cleaning of the raw emergency-room data frame (`app/ingestion/parser.py`): column-name
    normalisation and removal of the regional-total rows. */
module Parser {
  import opened Wrappers
  import opened Records
  import Frames

  // ----- Column names -----

  /** The characters Python's `str.strip()` removes. */
  predicate IsSpace(c: char) {
    || ('\t' <= c <= '\r')
    || ('\U{1C}' <= c <= ' ')
    || c == '\U{85}' || c == '\U{A0}' || c == '\U{1680}'
    || ('\U{2000}' <= c <= '\U{200A}')
    || c == '\U{2028}' || c == '\U{2029}' || c == '\U{202F}' || c == '\U{205F}' || c == '\U{3000}'
  }

  /** The number of whitespace characters `s` starts with. */
  function LeadingSpace(s: string): (n: nat)
    ensures n <= |s|
    ensures forall i :: 0 <= i < n ==> IsSpace(s[i])
    ensures n < |s| ==> !IsSpace(s[n])
  {
    if s == [] || !IsSpace(s[0]) then 0
    else
      var n := 1 + LeadingSpace(s[1..]);
      assert forall i :: 1 <= i < n ==> s[i] == s[1..][i - 1];
      n
  }

  /** The number of whitespace characters `s` ends with. */
  function TrailingSpace(s: string): (n: nat)
    ensures n <= |s|
    ensures forall i :: |s| - n <= i < |s| ==> IsSpace(s[i])
    ensures n < |s| ==> !IsSpace(s[|s| - 1 - n])
  {
    if s == [] || !IsSpace(s[|s| - 1]) then 0
    else 1 + TrailingSpace(s[..|s| - 1])
  }

  /** `s.strip()`. */
  function Strip(s: string): (r: string)
    ensures r == [] || (!IsSpace(r[0]) && !IsSpace(r[|r| - 1]))
  {
    var rest := s[LeadingSpace(s)..];
    rest[..|rest| - TrailingSpace(rest)]
  }

  predicate AllSpace(s: string) {
    forall i :: 0 <= i < |s| ==> IsSpace(s[i])
  }

  /** The whitespace `strip` removes from the front. */
  function StrippedFront(s: string): string {
    s[..LeadingSpace(s)]
  }

  /** The whitespace `strip` removes from the back. */
  function StrippedBack(s: string): string {
    var rest := s[LeadingSpace(s)..];
    rest[|rest| - TrailingSpace(rest)..]
  }

  lemma {:induction false} SplitThree<T>(s: seq<T>, i: nat, j: nat)
    requires i <= |s| && j <= |s| - i
    ensures s == s[..i] + s[i..][..j] + s[i..][j..]
  {
    assert s[i..] == s[i..][..j] + s[i..][j..];
    assert s == s[..i] + s[i..];
  }

  /** `strip` removes a part from each end and keeps the middle. */
  lemma {:induction false} StripSplits(s: string)
    ensures s == StrippedFront(s) + Strip(s) + StrippedBack(s)
  {
    var rest := s[LeadingSpace(s)..];
    SplitThree(s, LeadingSpace(s), |rest| - TrailingSpace(rest));
  }

  /** What `strip` removes is whitespace only. */
  lemma {:induction false} StrippedIsSpace(s: string)
    ensures AllSpace(StrippedFront(s)) && AllSpace(StrippedBack(s))
  {
    var rest := s[LeadingSpace(s)..];
    var trail := TrailingSpace(rest);
    var b := StrippedBack(s);
    forall i | 0 <= i < |b| ensures IsSpace(b[i]) {
      assert b[i] == rest[|rest| - trail + i];
    }
  }

  /** A string with no whitespace at either end is its own strip. */
  lemma {:induction false} StripTrimmed(s: string)
    requires s == [] || (!IsSpace(s[0]) && !IsSpace(s[|s| - 1]))
    ensures Strip(s) == s
  {
  }

  /** Stripping twice strips nothing more. */
  lemma {:induction false} StripIdempotent(s: string)
    ensures Strip(Strip(s)) == Strip(s)
  {
    StripTrimmed(Strip(s));
  }

  /** `s.replace(a, b)` for single characters. */
  function ReplaceChar(s: string, a: char, b: char): (r: string)
    ensures |r| == |s|
    ensures forall i :: 0 <= i < |s| ==> r[i] == if s[i] == a then b else s[i]
  {
    if s == [] then []
    else [if s[0] == a then b else s[0]] + ReplaceChar(s[1..], a, b)
  }

  /** Replacing a character that does not occur changes nothing. */
  lemma {:induction false} ReplaceAbsent(s: string, a: char, b: char)
    requires a !in s
    ensures ReplaceChar(s, a, b) == s
  {
    forall i | 0 <= i < |s| ensures ReplaceChar(s, a, b)[i] == s[i] {
      assert s[i] in s;
    }
  }

  /** `s.replace(c, "")`. */
  function RemoveChar(s: string, c: char): (r: string)
    ensures |r| <= |s|
    ensures c !in r
    ensures forall x :: x in r ==> x in s
  {
    if s == [] then []
    else (if s[0] == c then [] else [s[0]]) + RemoveChar(s[1..], c)
  }

  /** Removing a character that does not occur changes nothing. */
  lemma {:induction false} RemoveAbsent(s: string, c: char)
    requires c !in s
    ensures RemoveChar(s, c) == s
  {
    if s != [] {
      RemoveAbsent(s[1..], c);
      assert s == [s[0]] + s[1..];
    }
  }

  /** One character after NFKD decomposition with the non-ASCII part dropped. ASCII stays as
      it is; an accented Latin-1 letter keeps its base letter; superscripts, ordinals and
      fractions keep their digits and letters; spacing accents and the no-break space become
      a space; everything else is dropped. */
  function FoldChar(c: char): (r: string)
    ensures forall x :: x in r ==> x < 128 as char
    ensures '\'' in r ==> c == '\''
  {
    if c < 128 as char then [c]
    else if c == '\U{A0}' || c == '¨' || c == '¯' || c == '´' || c == '¸' then " "
    else if c == 'ª' then "a"
    else if c == 'º' then "o"
    else if c == '²' then "2"
    else if c == '³' then "3"
    else if c == '¹' then "1"
    else if c == '¼' then "14"
    else if c == '½' then "12"
    else if c == '¾' then "34"
    else if 'À' <= c <= 'Å' then "A"
    else if c == 'Ç' then "C"
    else if 'È' <= c <= 'Ë' then "E"
    else if 'Ì' <= c <= 'Ï' then "I"
    else if c == 'Ñ' then "N"
    else if 'Ò' <= c <= 'Ö' then "O"
    else if 'Ù' <= c <= 'Ü' then "U"
    else if c == 'Ý' then "Y"
    else if 'à' <= c <= 'å' then "a"
    else if c == 'ç' then "c"
    else if 'è' <= c <= 'ë' then "e"
    else if 'ì' <= c <= 'ï' then "i"
    else if c == 'ñ' then "n"
    else if 'ò' <= c <= 'ö' then "o"
    else if 'ù' <= c <= 'ü' then "u"
    else if c == 'ý' || c == 'ÿ' then "y"
    else []
  }

  /** `normalize("NFKD").encode("ascii", errors="ignore").decode("utf-8")`. */
  function AsciiFold(s: string): (r: string)
    ensures forall x :: x in r ==> x < 128 as char
  {
    if s == [] then [] else FoldChar(s[0]) + AsciiFold(s[1..])
  }

  /** The fold introduces no apostrophe. */
  lemma {:induction false} FoldAddsNoApostrophe(s: string)
    requires '\'' !in s
    ensures '\'' !in AsciiFold(s)
  {
    if s != [] {
      FoldAddsNoApostrophe(s[1..]);
    }
  }

  /** Every character is ASCII. */
  predicate IsAscii(s: string) {
    s == [] || (s[0] < 128 as char && IsAscii(s[1..]))
  }

  /** The fold leaves an ASCII name as it is. */
  lemma {:induction false} AsciiFoldAscii(s: string)
    requires IsAscii(s)
    ensures AsciiFold(s) == s
  {
    if s != [] {
      AsciiFoldAscii(s[1..]);
      assert FoldChar(s[0]) == [s[0]];
      assert s == [s[0]] + s[1..];
    }
  }

  lemma {:induction false} AsciiByMembers(s: string)
    requires forall x :: x in s ==> x < 128 as char
    ensures IsAscii(s)
  {
    if s != [] {
      assert s[0] in s;
      assert forall x :: x in s[1..] ==> x in s;
      AsciiByMembers(s[1..]);
    }
  }

  /** Everything after the strip: spaces to underscores, apostrophes removed, accents
      folded to ASCII, in that order. */
  function Tidy(s: string): string {
    AsciiFold(RemoveChar(ReplaceChar(s, ' ', '_'), '\''))
  }

  /** The column-name pipeline: `strip` first, then the rest. */
  function CleanColumnName(name: string): string {
    Tidy(Strip(name))
  }

  /** A cleaned name is ASCII and has no apostrophe; before the fold it has no space. */
  lemma {:induction false} CleanColumnNameShape(name: string)
    ensures ' ' !in ReplaceChar(Strip(name), ' ', '_')
    ensures forall x :: x in CleanColumnName(name) ==> x < 128 as char
    ensures '\'' !in CleanColumnName(name)
  {
    FoldAddsNoApostrophe(RemoveChar(ReplaceChar(Strip(name), ' ', '_'), '\''));
  }

  /** ASCII without spaces or apostrophes: the characters `Tidy` leaves alone. */
  predicate Plain(w: string) {
    ' ' !in w && '\'' !in w && forall x :: x in w ==> x < 128 as char
  }

  /** `Tidy` works character by character, so it distributes over concatenation. */
  lemma {:induction false} TidyConcat(a: string, b: string)
    ensures Tidy(a + b) == Tidy(a) + Tidy(b)
  {
    ReplaceConcat(a, b, ' ', '_');
    var ra, rb := ReplaceChar(a, ' ', '_'), ReplaceChar(b, ' ', '_');
    RemoveConcat(ra, rb, '\'');
    FoldConcat(RemoveChar(ra, '\''), RemoveChar(rb, '\''));
  }

  lemma {:induction false} TidyPlain(w: string)
    requires Plain(w)
    ensures Tidy(w) == w
  {
    ReplaceAbsent(w, ' ', '_');
    RemoveAbsent(w, '\'');
    AsciiByMembers(w);
    AsciiFoldAscii(w);
  }

  /** On a single character other than a space or an apostrophe, `Tidy` is the fold. */
  lemma {:induction false} TidyChar(c: char)
    requires c != ' ' && c != '\''
    ensures Tidy([c]) == FoldChar(c)
  {
    assert ReplaceChar([c], ' ', '_') == [c];
    assert RemoveChar([c], '\'') == [c];
    assert AsciiFold([c]) == FoldChar(c) + AsciiFold([]);
  }

  /** A no-break space decomposes to a space only after the space replacement has run, so
      a cleaned name can still hold a space. */
  lemma {:induction false} SpaceCanSurvive(name: string)
    requires name == "a\U{A0}b"
    ensures CleanColumnName(name) == "a b"
  {
    StripTrimmed(name);
    assert name == "a" + ['\U{A0}'] + "b";
    TidyConcat("a" + ['\U{A0}'], "b");
    TidyConcat("a", ['\U{A0}']);
    TidyChar('\U{A0}');
    TidyPlain("a");
    TidyPlain("b");
  }

  /** An ASCII name without apostrophes, spaces or surrounding whitespace is unchanged. */
  lemma {:induction false} CleanPlainName(name: string)
    requires Plain(name)
    requires name == [] || (!IsSpace(name[0]) && !IsSpace(name[|name| - 1]))
    ensures CleanColumnName(name) == name
  {
    StripTrimmed(name);
    TidyPlain(name);
  }

  /** A space between two parts becomes an underscore. */
  lemma {:induction false} TidyAtSpace(a: string, b: string)
    ensures Tidy(a + " " + b) == Tidy(a) + "_" + Tidy(b)
  {
    TidySpace();
    TidyConcat(a + " ", b);
    TidyConcat(a, " ");
  }

  lemma TidySpace()
    ensures Tidy(" ") == "_"
  {
  }

  lemma TidyApostrophe()
    ensures Tidy("'") == []
  {
  }

  /** An apostrophe between two parts disappears. */
  lemma {:induction false} TidyAtApostrophe(a: string, b: string)
    ensures Tidy(a + "'" + b) == Tidy(a) + Tidy(b)
  {
    TidyApostrophe();
    TidyConcat(a + "'", b);
    TidyConcat(a, "'");
  }

  /** Words joined by spaces, one of them split by an apostrophe, come out joined by
      underscores with the apostrophe gone. */
  lemma {:induction false} TidyWords(w1: string, w2: string, w3: string, w4: string, w5: string)
    requires Plain(w1) && Plain(w2) && Plain(w3) && Plain(w4) && Plain(w5)
    ensures Tidy(w1 + " " + (w2 + " " + (w3 + "'" + (w4 + " " + w5)))) == w1 + "_" + (w2 + "_" + (w3 + (w4 + "_" + w5)))
  {
    TidyPlain(w1); TidyPlain(w2); TidyPlain(w3); TidyPlain(w4); TidyPlain(w5);
    TidyAtSpace(w4, w5);
    TidyAtApostrophe(w3, w4 + " " + w5);
    TidyAtSpace(w2, w3 + "'" + (w4 + " " + w5));
    TidyAtSpace(w1, w2 + " " + (w3 + "'" + (w4 + " " + w5)));
  }

  /** The words of the extraction-time column are plain. */
  lemma ExtractionWordsPlain()
    ensures Plain("Heure") && Plain("de") && Plain("l")
    ensures Plain("extraction") && Plain("(image)")
  {
  }

  /** The extraction-time column and its cleaned form, word by word. */
  lemma ExtractionWords()
    ensures "Heure de l'extraction (image)" == "Heure" + " " + ("de" + " " + ("l" + "'" + ("extraction" + " " + "(image)")))
  {
  }

  lemma ExtractionJoined()
    ensures "Heure" + "_" + ("de" + "_" + ("l" + ("extraction" + "_" + "(image)"))) == "Heure_de_lextraction_(image)"
  {
  }

  /** The extraction-time column. */
  lemma {:induction false} ExtractionColumnExample(name: string)
    requires name == "Heure de l'extraction (image)"
    ensures CleanColumnName(name) == "Heure_de_lextraction_(image)"
  {
    StripTrimmed(name);
    ExtractionWords();
    ExtractionJoined();
    ExtractionWordsPlain();
    TidyWords("Heure", "de", "l", "extraction", "(image)");
  }

  /** Three words joined by spaces, the middle one a single character, come out joined by
      underscores with that character folded. */
  lemma {:induction false} TidyAroundChar(w1: string, c: char, w3: string)
    requires Plain(w1) && Plain(w3) && c != ' ' && c != '\''
    ensures Tidy(w1 + " " + [c] + " " + w3) == w1 + "_" + FoldChar(c) + "_" + w3
  {
    TidyPlain(w1);
    TidyPlain(w3);
    TidySpace();
    TidyChar(c);
    TidyConcat(w1 + " " + [c] + " ", w3);
    TidyConcat(w1 + " " + [c], " ");
    TidyConcat(w1 + " ", [c]);
    TidyConcat(w1, " ");
  }

  /** The update-time column: the accented letter keeps its base letter. */
  lemma {:induction false} UpdateColumnExample(name: string)
    requires name == "Mise à jour"
    ensures CleanColumnName(name) == "Mise_a_jour"
  {
    StripTrimmed(name);
    assert name == "Mise" + " " + ['à'] + " " + "jour";
    UpdateColumnTidy();
  }

  lemma UpdateColumnTidy()
    ensures Tidy("Mise" + " " + ['à'] + " " + "jour") == "Mise_a_jour"
  {
    TidyAroundChar("Mise", 'à', "jour");
    FoldGrave();
  }

  lemma FoldGrave()
    ensures FoldChar('à') == "a"
  {
  }

  lemma {:induction false} ReplaceConcat(a: string, b: string, x: char, y: char)
    ensures ReplaceChar(a + b, x, y) == ReplaceChar(a, x, y) + ReplaceChar(b, x, y)
  {
    var l, r := ReplaceChar(a + b, x, y), ReplaceChar(a, x, y) + ReplaceChar(b, x, y);
    var la := ReplaceChar(a, x, y);
    forall i | 0 <= i < |a + b| ensures l[i] == r[i] {
      if i < |a| {
        assert (a + b)[i] == a[i] && r[i] == la[i];
      } else {
        assert (a + b)[i] == b[i - |a|] && r[i] == ReplaceChar(b, x, y)[i - |a|];
      }
    }
  }

  lemma {:induction false} RemoveConcat(a: string, b: string, c: char)
    ensures RemoveChar(a + b, c) == RemoveChar(a, c) + RemoveChar(b, c)
  {
    if a != [] {
      RemoveConcat(a[1..], b, c);
      assert (a + b)[1..] == a[1..] + b;
    } else {
      assert a + b == b;
    }
  }

  lemma {:induction false} FoldConcat(a: string, b: string)
    ensures AsciiFold(a + b) == AsciiFold(a) + AsciiFold(b)
  {
    if a != [] {
      FoldConcat(a[1..], b);
      assert (a + b)[1..] == a[1..] + b;
    } else {
      assert a + b == b;
    }
  }

  // ----- The frame -----

  /** A data frame: column names, and rows of cells in column order. */
  datatype Frame = Frame(columns: seq<string>, rows: seq<seq<Value>>)

  /** Every row has one cell per column, as in any pandas frame. */
  predicate Rectangular(df: Frame) {
    forall i :: 0 <= i < |df.rows| ==> |df.rows[i]| == |df.columns|
  }

  function CleanColumns(columns: seq<string>): (r: seq<string>)
    ensures |r| == |columns|
    ensures forall i :: 0 <= i < |columns| ==> r[i] == CleanColumnName(columns[i])
  {
    seq(|columns|, i requires 0 <= i < |columns| => CleanColumnName(columns[i]))
  }

  /** The position of the first column with this name. */
  function IndexOf(columns: seq<string>, name: string): (r: Option<nat>)
    ensures r.None? <==> name !in columns
    ensures r.Some? ==> r.value < |columns| && columns[r.value] == name
    ensures r.Some? ==> forall c :: 0 <= c < r.value ==> columns[c] != name
  {
    if columns == [] then None
    else if columns[0] == name then Some(0)
    else match IndexOf(columns[1..], name)
      case None => None
      case Some(i) => Some(i + 1)
  }

  const RegionalTotal := "Total régional"
  const ProvinceTotal := "Ensemble du Québec"

  /** `df[df["Nom_installation"] != name]`: the row mask. */
  function Differs(k: nat, name: string): seq<Value> -> bool {
    row => !(k < |row| && row[k] == Text(name))
  }

  /** Both regional-total tests at once. */
  function NotATotal(k: nat): seq<Value> -> bool {
    row => !(k < |row| && (row[k] == Text(RegionalTotal) || row[k] == Text(ProvinceTotal)))
  }

  /** The columns the cleaning reads after renaming are all there; a missing one raises
      `KeyError`. */
  predicate HasReadColumns(columns: seq<string>) {
    && "Nom_installation" in columns
    && "No_permis_installation" in columns
    && "Heure_de_lextraction_(image)" in columns
    && "Mise_a_jour" in columns
  }

  /** Where `df[name] = …` writes: the first column of that name, or a new last column. */
  function Slot(columns: seq<string>, name: string): (j: nat)
    ensures j <= |columns|
    ensures j < |columns| <==> name in columns
    ensures j < |columns| ==> IndexOf(columns, name) == Some(j)
  {
    match IndexOf(columns, name)
    case Some(j) => j
    case None => |columns|
  }

  /** The column names after `df[name] = …`. */
  function WithColumn(columns: seq<string>, name: string): seq<string> {
    if name in columns then columns else columns + [name]
  }

  /** `row` with its cell at `j` set to `v`, or `v` appended when `j` is just past the end. */
  function SetCell(row: seq<Value>, j: nat, v: Value): (r: seq<Value>)
    requires j <= |row|
    ensures |r| == if j < |row| then |row| else |row| + 1
    ensures r[j] == v
    ensures forall c :: 0 <= c < |row| && c != j ==> r[c] == row[c]
  {
    if j < |row| then row[j := v] else row + [v]
  }

  /** `df[name] = values`, the value of each row computed from that row: an existing column
      is overwritten where it stands, a new one goes last. */
  function Assign(df: Frame, name: string, f: seq<Value> -> Value): (r: Frame)
    requires Rectangular(df)
    ensures r.columns == WithColumn(df.columns, name) && |r.rows| == |df.rows|
    ensures Rectangular(r)
  {
    var j := Slot(df.columns, name);
    Frame(WithColumn(df.columns, name),
          seq(|df.rows|, i requires 0 <= i < |df.rows| => SetCell(df.rows[i], j, f(df.rows[i]))))
  }

  /** After `df[name] = …` the column found under `name` holds the computed values. */
  lemma AssignReads(df: Frame, name: string, f: seq<Value> -> Value, i: nat)
    requires Rectangular(df) && i < |df.rows|
    ensures var r := Assign(df, name, f);
            && IndexOf(r.columns, name) == Some(Slot(df.columns, name))
            && r.rows[i][Slot(df.columns, name)] == f(df.rows[i])
  {
    if name !in df.columns {
      IndexOfAppend(df.columns, name);
    }
  }

  /** `df[name] = …` leaves every column of another name where it was, with its cells. */
  lemma AssignKeeps(df: Frame, name: string, f: seq<Value> -> Value, i: nat, c: nat)
    requires Rectangular(df) && i < |df.rows| && c < |df.columns| && df.columns[c] != name
    ensures Assign(df, name, f).columns[c] == df.columns[c]
    ensures Assign(df, name, f).rows[i][c] == df.rows[i][c]
  {
  }

  /** A name absent from `columns` is found at the end of `columns + [name]`. */
  lemma IndexOfAppend(columns: seq<string>, name: string)
    requires name !in columns
    ensures IndexOf(columns + [name], name) == Some(|columns|)
  {
    var r := IndexOf(columns + [name], name);
    assert (columns + [name])[|columns|] == name;
  }

  /** Appending a column does not move the columns already there. */
  lemma IndexOfWith(columns: seq<string>, name: string, other: string)
    requires other in columns
    ensures IndexOf(WithColumn(columns, name), other) == IndexOf(columns, other)
  {
    var j := IndexOf(columns, other).value;
    assert WithColumn(columns, name)[j] == other;
  }

  /** `df[col].astype(str)`: the text Python's `str` gives the cell. */
  function AsText(k: nat): seq<Value> -> Value {
    row => if k < |row| then Text(Render(row[k])) else Null
  }

  /** `pd.to_datetime(df[col])`, with the date parser a parameter. */
  function AsDatetime(toDatetime: Value -> Value, k: nat): seq<Value> -> Value {
    row => if k < |row| then toDatetime(row[k]) else Null
  }

  /** The surviving rows of a rectangular frame still have one cell per column. */
  lemma KeptRectangular(df: Frame, kept: seq<seq<Value>>)
    requires Rectangular(df) && forall x :: x in kept ==> x in df.rows
    ensures Rectangular(Frame(df.columns, kept))
  {
    forall i | 0 <= i < |kept| ensures |kept[i]| == |df.columns| {
      assert kept[i] in df.rows;
    }
  }

  /** The frame with renamed columns and without the regional-total rows. */
  function Kept(df: Frame): (r: Frame)
    requires Rectangular(df) && HasReadColumns(CleanColumns(df.columns))
    ensures r.columns == CleanColumns(df.columns) && Rectangular(r)
  {
    var columns := CleanColumns(df.columns);
    var k := IndexOf(columns, "Nom_installation").value;
    var rows := Frames.Filter(Frames.Filter(df.rows, Differs(k, RegionalTotal)), Differs(k, ProvinceTotal));
    KeptRectangular(Frame(columns, df.rows), rows);
    Frame(columns, rows)
  }

  /** `clean_dataframe(df)`: renamed columns, the regional-total rows removed, the permit number
      turned to text, and `snapshot_time` and `updated_at` parsed from the extraction and update
      columns; `None` when a column the function reads is missing after renaming. */
  function CleanDataframe(df: Frame, toDatetime: Value -> Value): (r: Option<Frame>)
    requires Rectangular(df)
    ensures r.None? <==> !HasReadColumns(CleanColumns(df.columns))
    ensures r.Some? ==> r.value.columns == WithColumn(WithColumn(CleanColumns(df.columns), "snapshot_time"), "updated_at")
    ensures r.Some? ==> |r.value.rows| <= |df.rows|
  {
    if !HasReadColumns(CleanColumns(df.columns)) then None
    else Some(Convert(Kept(df), toDatetime))
  }

  /** The three column assignments at the end of `clean_dataframe`, each reading the frame the
      previous one left. */
  function Convert(kept: Frame, toDatetime: Value -> Value): (r: Frame)
    requires Rectangular(kept) && HasReadColumns(kept.columns)
    ensures r.columns == WithColumn(WithColumn(kept.columns, "snapshot_time"), "updated_at")
    ensures |r.rows| == |kept.rows| && Rectangular(r)
    ensures "snapshot_time" in r.columns && "updated_at" in r.columns
    ensures |kept.columns| <= |r.columns|
  {
    var permits := Assign(kept, "No_permis_installation", AsText(IndexOf(kept.columns, "No_permis_installation").value));
    assert "Heure_de_lextraction_(image)" in permits.columns;
    var stamped := Assign(permits, "snapshot_time", AsDatetime(toDatetime, IndexOf(permits.columns, "Heure_de_lextraction_(image)").value));
    assert "Mise_a_jour" in stamped.columns;
    Assign(stamped, "updated_at", AsDatetime(toDatetime, IndexOf(stamped.columns, "Mise_a_jour").value))
  }

  /** Two filters in a row keep what one filter on both tests keeps. */
  lemma {:induction false} FilterFilter<T>(s: seq<T>, p: T -> bool, q: T -> bool, both: T -> bool)
    requires forall x :: both(x) == (p(x) && q(x))
    ensures Frames.Filter(Frames.Filter(s, p), q) == Frames.Filter(s, both)
  {
    if s != [] {
      FilterFilter(s[1..], p, q, both);
      var first := Frames.Filter(s, p);
      if p(s[0]) {
        assert first[0] == s[0] && first[1..] == Frames.Filter(s[1..], p);
      } else {
        assert first == Frames.Filter(s[1..], p);
      }
    }
  }

  /** The two filters keep exactly the rows the single combined test keeps, in order. */
  lemma {:induction false} TwoFiltersAsOne(rows: seq<seq<Value>>, k: nat)
    ensures Frames.Filter(Frames.Filter(rows, Differs(k, RegionalTotal)), Differs(k, ProvinceTotal))
            == Frames.Filter(rows, NotATotal(k))
  {
    FilterFilter(rows, Differs(k, RegionalTotal), Differs(k, ProvinceTotal), NotATotal(k));
  }

  /** The rows that survive are the input rows naming neither total, in order, one output row
      each; a row survives iff it was in the input and names neither total. */
  lemma {:induction false} CleanDataframeRows(df: Frame, toDatetime: Value -> Value, row: seq<Value>)
    requires Rectangular(df) && CleanDataframe(df, toDatetime).Some?
    ensures var columns := CleanColumns(df.columns);
            var k := IndexOf(columns, "Nom_installation").value;
            && Kept(df).rows == Frames.Filter(df.rows, NotATotal(k))
            && |CleanDataframe(df, toDatetime).value.rows| == |Kept(df).rows|
            && (row in Kept(df).rows <==> row in df.rows && row[k] != Text(RegionalTotal) && row[k] != Text(ProvinceTotal))
  {
    var columns := CleanColumns(df.columns);
    var k := IndexOf(columns, "Nom_installation").value;
    TwoFiltersAsOne(df.rows, k);
    if row in df.rows && NotATotal(k)(row) {
      Frames.FilterKeeps(df.rows, NotATotal(k), row);
    }
  }

  /** Row `i` of the result is surviving row `i` with the permit number as text, `snapshot_time`
      and `updated_at` parsed from its extraction and update cells, and every other column as
      it was. */
  lemma {:induction false} CleanDataframeCells(df: Frame, toDatetime: Value -> Value, i: nat)
    requires Rectangular(df) && CleanDataframe(df, toDatetime).Some?
    requires i < |Kept(df).rows|
    ensures var columns := CleanColumns(df.columns);
            var r := CleanDataframe(df, toDatetime).value;
            var src := Kept(df).rows[i];
            var out := r.rows[i];
            var permit := IndexOf(columns, "No_permis_installation").value;
            && out[permit] == Text(Render(src[permit]))
            && out[IndexOf(r.columns, "snapshot_time").value] == toDatetime(src[IndexOf(columns, "Heure_de_lextraction_(image)").value])
            && out[IndexOf(r.columns, "updated_at").value] == toDatetime(src[IndexOf(columns, "Mise_a_jour").value])
            && forall c :: (0 <= c < |columns| && columns[c] != "No_permis_installation"
                 && columns[c] != "snapshot_time" && columns[c] != "updated_at") ==> out[c] == src[c]
  {
    ConvertCells(Kept(df), toDatetime, i);
  }

  /** The cells of row `i` after the three assignments, read by column name. */
  lemma {:induction false} ConvertCells(kept: Frame, toDatetime: Value -> Value, i: nat)
    requires Rectangular(kept) && HasReadColumns(kept.columns) && i < |kept.rows|
    ensures var columns := kept.columns;
            var r := Convert(kept, toDatetime);
            var src := kept.rows[i];
            var out := r.rows[i];
            var permit := IndexOf(columns, "No_permis_installation").value;
            && out[permit] == Text(Render(src[permit]))
            && out[IndexOf(r.columns, "snapshot_time").value] == toDatetime(src[IndexOf(columns, "Heure_de_lextraction_(image)").value])
            && out[IndexOf(r.columns, "updated_at").value] == toDatetime(src[IndexOf(columns, "Mise_a_jour").value])
            && forall c :: (0 <= c < |columns| && columns[c] != "No_permis_installation"
                 && columns[c] != "snapshot_time" && columns[c] != "updated_at") ==> out[c] == src[c]
  {
    var columns := kept.columns;
    var permit := IndexOf(columns, "No_permis_installation").value;
    var extracted := IndexOf(columns, "Heure_de_lextraction_(image)").value;
    var updated := IndexOf(columns, "Mise_a_jour").value;
    var permits := Assign(kept, "No_permis_installation", AsText(permit));
    var stamped := Assign(permits, "snapshot_time", AsDatetime(toDatetime, extracted));
    var r := Assign(stamped, "updated_at", AsDatetime(toDatetime, updated));
    ConvertSteps(kept, toDatetime, permits, stamped);
    AssignReads(kept, "No_permis_installation", AsText(permit), i);
    AssignKeeps(permits, "snapshot_time", AsDatetime(toDatetime, extracted), i, permit);
    AssignKeeps(stamped, "updated_at", AsDatetime(toDatetime, updated), i, permit);
    AssignKeeps(kept, "No_permis_installation", AsText(permit), i, extracted);
    AssignReads(permits, "snapshot_time", AsDatetime(toDatetime, extracted), i);
    StampedKept(kept, toDatetime, permits, stamped, r, i);
    AssignKeeps(kept, "No_permis_installation", AsText(permit), i, updated);
    AssignKeeps(permits, "snapshot_time", AsDatetime(toDatetime, extracted), i, updated);
    AssignReads(stamped, "updated_at", AsDatetime(toDatetime, updated), i);
    forall c | 0 <= c < |columns| && columns[c] != "No_permis_installation"
                 && columns[c] != "snapshot_time" && columns[c] != "updated_at"
      ensures r.rows[i][c] == kept.rows[i][c]
    {
      AssignKeeps(kept, "No_permis_installation", AsText(permit), i, c);
      AssignKeeps(permits, "snapshot_time", AsDatetime(toDatetime, extracted), i, c);
      AssignKeeps(stamped, "updated_at", AsDatetime(toDatetime, updated), i, c);
    }
  }

  /** The `snapshot_time` cell survives the `updated_at` assignment and is found there by name. */
  lemma StampedKept(kept: Frame, toDatetime: Value -> Value, permits: Frame, stamped: Frame, r: Frame, i: nat)
    requires Rectangular(kept) && HasReadColumns(kept.columns) && i < |kept.rows|
    requires permits == Assign(kept, "No_permis_installation", AsText(IndexOf(kept.columns, "No_permis_installation").value))
    requires stamped == Assign(permits, "snapshot_time", AsDatetime(toDatetime, IndexOf(kept.columns, "Heure_de_lextraction_(image)").value))
    requires r == Assign(stamped, "updated_at", AsDatetime(toDatetime, IndexOf(kept.columns, "Mise_a_jour").value))
    ensures IndexOf(r.columns, "snapshot_time") == Some(Slot(permits.columns, "snapshot_time"))
    ensures r.rows[i][Slot(permits.columns, "snapshot_time")] == stamped.rows[i][Slot(permits.columns, "snapshot_time")]
  {
    var j := Slot(permits.columns, "snapshot_time");
    AssignReads(permits, "snapshot_time", AsDatetime(toDatetime, IndexOf(kept.columns, "Heure_de_lextraction_(image)").value), i);
    IndexOfWith(stamped.columns, "updated_at", "snapshot_time");
    AssignKeeps(stamped, "updated_at", AsDatetime(toDatetime, IndexOf(kept.columns, "Mise_a_jour").value), i, j);
  }

  /** `Convert` as three assignments whose source columns sit where they did in `kept`. */
  lemma ConvertSteps(kept: Frame, toDatetime: Value -> Value, permits: Frame, stamped: Frame)
    requires Rectangular(kept) && HasReadColumns(kept.columns)
    requires permits == Assign(kept, "No_permis_installation", AsText(IndexOf(kept.columns, "No_permis_installation").value))
    requires stamped == Assign(permits, "snapshot_time", AsDatetime(toDatetime, IndexOf(kept.columns, "Heure_de_lextraction_(image)").value))
    ensures Convert(kept, toDatetime) == Assign(stamped, "updated_at", AsDatetime(toDatetime, IndexOf(kept.columns, "Mise_a_jour").value))
  {
    IndexOfWith(kept.columns, "snapshot_time", "Mise_a_jour");
  }
}
