/** csv2sql.sh: the awk program that turns one CSV row into a list of SQL literals, and a reader for such
    lists. */
module Csv {

  datatype Option<+T> = None | Some(value: T)

  /** A value of a VALUES list. */
  datatype Value = Null | Number(text: string) | Str(text: string)

  // ---- the row ----

  /** The fields awk sees with `-F,`. */
  function Split(line: string): (fields: seq<string>)
    ensures |fields| >= 1
  {
    if line == [] then [[]]
    else
      var rest := Split(line[1..]);
      if line[0] == ',' then [[]] + rest else [[line[0]] + rest[0]] + rest[1..]
  }

  function Join(parts: seq<string>, sep: string): string
  {
    if parts == [] then [] else if |parts| == 1 then parts[0] else parts[0] + sep + Join(parts[1..], sep)
  }

  predicate Blank(c: char) { c == ' ' || c == '\t' }

  function TrimLeft(f: string): string
  {
    if f != [] && Blank(f[0]) then TrimLeft(f[1..]) else f
  }

  function TrimRight(f: string): string
  {
    if f != [] && Blank(f[|f| - 1]) then TrimRight(f[..|f| - 1]) else f
  }

  /** `gsub(/^[ \t]+|[ \t]+$/, "", f)`. */
  function Trim(f: string): string { TrimRight(TrimLeft(f)) }

  predicate NumberChar(c: char) { '0' <= c <= '9' || c == '.' }

  /** `f ~ /^-?[0-9.]+$/`. */
  predicate IsNumber(f: string)
  {
    Unsigned(f) != [] && forall k :: 0 <= k < |Unsigned(f)| ==> NumberChar(Unsigned(f)[k])
  }

  function Unsigned(f: string): string { if f != [] && f[0] == '-' then f[1..] else f }

  /** `gsub(/'/, "''", f)`. */
  function DoubleQuotes(f: string): string
  {
    if f == [] then [] else (if f[0] == '\'' then "''" else [f[0]]) + DoubleQuotes(f[1..])
  }

  /** The value a field stands for. */
  function Meaning(field: string): Value
  {
    var f := Trim(field);
    if f == "" || f == "NULL" then Null else if IsNumber(f) then Number(f) else Str(f)
  }

  function Meanings(fields: seq<string>): (vs: seq<Value>)
    ensures |vs| == |fields|
    ensures forall k :: 0 <= k < |fields| ==> vs[k] == Meaning(fields[k])
  {
    seq(|fields|, k requires 0 <= k < |fields| => Meaning(fields[k]))
  }

  /** A value as it is printed. */
  function Literal(v: Value): string
  {
    match v
    case Null => "NULL"
    case Number(t) => t
    case Str(t) => "'" + DoubleQuotes(t) + "'"
  }

  function Literals(vs: seq<Value>): (ls: seq<string>)
    ensures |ls| == |vs|
  {
    seq(|vs|, k requires 0 <= k < |vs| => Literal(vs[k]))
  }

  lemma LiteralAt(parts: seq<string>, k: nat)
    requires k < |parts|
    ensures var f, literals := Trim(parts[k]), Literals(Meanings(parts));
            literals[k] == if f == "" || f == "NULL" then "NULL"
                           else if IsNumber(f) then f else "'" + DoubleQuotes(f) + "'"
  {}

  /** The awk loop over one row: fields are rewritten in place, `val_list` grows at its end. */
  method ValList(line: string) returns (list: string)
    ensures list == Join(Literals(Meanings(Split(line))), ", ")
  {
    hide Split, Join, Trim, IsNumber, DoubleQuotes, Literals, Meanings;
    var parts := Split(line);
    var field := new string[|parts|](k requires 0 <= k < |parts| => parts[k]);
    ghost var literals := Literals(Meanings(parts));
    list := "";
    var i := 0;
    while i < field.Length
      invariant 0 <= i <= field.Length
      invariant forall k :: i <= k < |parts| ==> field[k] == parts[k]
      invariant i == 0 ==> list == ""
      invariant i > 0 ==> list == Join(literals[..i], ", ") && list != ""
    {
      field[i] := Trim(field[i]);
      var v;
      if field[i] == "" || field[i] == "NULL" {
        v := "NULL";
      } else if IsNumber(field[i]) {
        v := field[i];
      } else {
        field[i] := DoubleQuotes(field[i]);
        v := "'" + field[i] + "'";
      }
      LiteralAt(parts, i);
      assert v == literals[i];
      JoinSnoc(literals[..i], v, ", ");
      assert literals[..i + 1] == literals[..i] + [v];
      list := (if list == "" then "" else list + ", ") + v;
      i := i + 1;
    }
    assert literals[..i] == literals;
    assert i > 0;
  }

  /** What the script prints for one data row: nothing for an empty line. */
  method ConvertRow(table: string, columns: string, line: string) returns (out: string)
    ensures line == "" <==> out == ""
    ensures line != "" ==>
              out == "INSERT INTO " + table + " (" + columns + ") VALUES ("
                     + Join(Literals(Meanings(Split(line))), ", ") + ");\n"
  {
    if line == "" {
      return "";
    }
    var list := ValList(line);
    out := "INSERT INTO " + table + " (" + columns + ") VALUES (" + list + ");\n";
    assert |out| > 0;
  }

  lemma {:induction false} JoinSnoc(parts: seq<string>, p: string, sep: string)
    ensures Join(parts + [p], sep) == if parts == [] then p else Join(parts, sep) + sep + p
    decreases |parts|
  {
    if parts == [] {
      assert parts + [p] == [p];
    } else {
      assert (parts + [p])[0] == parts[0] && (parts + [p])[1..] == parts[1..] + [p];
      JoinSnoc(parts[1..], p, sep);
      if |parts| > 1 {
        assert parts[0] + sep + (Join(parts[1..], sep) + sep + p) == parts[0] + sep + Join(parts[1..], sep) + sep + p;
      }
    }
  }

  // ---- reading a list back ----

  datatype Read<T> = Stuck | Done(value: T, rest: string)

  /** After an opening quote: characters up to the closing quote, a doubled quote standing for one. */
  function ReadQuoted(s: string): (r: Read<string>)
    ensures r.Done? ==> |r.rest| < |s|
  {
    if s == [] then Stuck
    else if s[0] == '\'' then
      if |s| > 1 && s[1] == '\'' then
        match ReadQuoted(s[2..])
        case Stuck => Stuck
        case Done(t, rest) => Done("'" + t, rest)
      else Done([], s[1..])
    else
      match ReadQuoted(s[1..])
      case Stuck => Stuck
      case Done(t, rest) => Done([s[0]] + t, rest)
  }

  function UntilComma(s: string): (k: nat)
    ensures k <= |s|
  {
    if s == [] || s[0] == ',' then 0 else 1 + UntilComma(s[1..])
  }

  function ReadValue(s: string): (r: Read<Value>)
    ensures r.Done? ==> |r.rest| < |s|
  {
    if s != [] && s[0] == '\'' then
      match ReadQuoted(s[1..])
      case Stuck => Stuck
      case Done(t, rest) => Done(Str(t), rest)
    else
      var word := s[..UntilComma(s)];
      if word == "NULL" then Done(Null, s[|word|..])
      else if IsNumber(word) then Done(Number(word), s[|word|..])
      else Stuck
  }

  /** A list of values separated by a comma and a space. */
  function ReadValues(s: string): Option<seq<Value>>
    decreases |s|
  {
    match ReadValue(s)
    case Stuck => None
    case Done(v, rest) =>
      if rest == "" then Some([v])
      else if |rest| < 2 || rest[..2] != ", " then None
      else
        match ReadValues(rest[2..])
        case None => None
        case Some(vs) => Some([v] + vs)
  }

  // ---- the laws ----

  /** `rest` can follow a literal. */
  predicate Follows(rest: string) { rest == "" || rest[0] == ',' }

  lemma {:induction false} QuotedRoundTrip(t: string, rest: string)
    requires Follows(rest)
    ensures ReadQuoted(DoubleQuotes(t) + "'" + rest) == Done(t, rest)
    decreases |t|
  {
    var s := DoubleQuotes(t) + "'" + rest;
    if t == [] {
      assert s == "'" + rest;
      assert s[1..] == rest;
    } else {
      var tail := DoubleQuotes(t[1..]) + "'" + rest;
      QuotedRoundTrip(t[1..], rest);
      if t[0] == '\'' {
        assert s == "''" + tail;
        assert s[2..] == tail;
      } else {
        assert s == [t[0]] + tail;
        assert s[1..] == tail;
      }
      assert t == [t[0]] + t[1..];
    }
  }

  lemma {:induction false} CommaFound(word: string, rest: string)
    requires Follows(rest) && ',' !in word
    ensures UntilComma(word + rest) == |word|
    decreases |word|
  {
    if word == [] {
      assert word + rest == rest;
    } else {
      assert (word + rest)[1..] == word[1..] + rest;
      CommaFound(word[1..], rest);
    }
  }

  /** The values the script prints: trimmed texts that are neither empty nor NULL nor numbers are quoted. */
  predicate Printable(v: Value)
  {
    v.Number? ==> IsNumber(v.text)
  }

  lemma MeaningPrintable(field: string)
    ensures Printable(Meaning(field))
  {}

  lemma NullIsNoNumber()
    ensures !IsNumber("NULL")
  {
    var w := "NULL";
    assert w[0] == 'N' && !NumberChar(w[0]);
    if IsNumber(w) {
      NumberChars(w);
    }
  }

  lemma ValueRoundTrip(v: Value, rest: string)
    requires Follows(rest) && Printable(v)
    ensures ReadValue(Literal(v) + rest) == Done(v, rest)
  {
    hide IsNumber, UntilComma, DoubleQuotes, ReadQuoted;
    var s := Literal(v) + rest;
    match v
    case Str(t) =>
      QuotedRoundTrip(t, rest);
      assert s[1..] == DoubleQuotes(t) + "'" + rest;
    case Null => WordRoundTrip("NULL", rest);
    case Number(t) =>
      NullIsNoNumber();
      WordRoundTrip(t, rest);
  }

  lemma NumberChars(word: string)
    requires IsNumber(word)
    ensures forall k :: 0 <= k < |word| ==> NumberChar(word[k]) || word[k] == '-'
  {
    if word[0] == '-' {
      forall k | 1 <= k < |word| ensures NumberChar(word[k]) { assert word[1..][k - 1] == word[k]; }
    }
  }

  lemma WordRoundTrip(word: string, rest: string)
    requires Follows(rest) && (word == "NULL" || IsNumber(word))
    ensures var s := word + rest;
            s[0] != '\'' && s[..UntilComma(s)] == word && s[|word|..] == rest
  {
    assert forall k :: 0 <= k < |word| && word != "NULL" ==> NumberChar(word[k]) || word[k] == '-' by {
      if word != "NULL" { NumberChars(word); }
    }
    assert ',' !in word;
    CommaFound(word, rest);
  }

  lemma {:induction false} ValuesRoundTrip(vs: seq<Value>)
    requires vs != [] && forall k :: 0 <= k < |vs| ==> Printable(vs[k])
    ensures ReadValues(Join(Literals(vs), ", ")) == Some(vs)
    decreases |vs|
  {
    hide ReadValue, Literal, Printable;
    var v, more := vs[0], vs[1..];
    assert Literals(vs) == [Literal(v)] + Literals(more);
    if more == [] {
      ValueRoundTrip(v, "");
      assert Literal(v) + "" == Literal(v);
      assert vs == [v];
    } else {
      var list := Join(Literals(more), ", ");
      ValuesRoundTrip(more);
      var rest := ", " + list;
      ValueRoundTrip(v, rest);
      assert Literals(vs)[1..] == Literals(more);
      assert Literal(v) + ", " + list == Literal(v) + rest;
      assert Join(Literals(vs), ", ") == Literal(v) + rest;
      assert rest[..2] == ", " && rest[2..] == list;
      assert vs == [v] + more;
    }
  }

  /** The round trip of a row: reading the printed list gives one value per comma-separated field, in order,
      each with the field's meaning. */
  lemma RowRoundTrip(line: string)
    ensures var fields := Split(line);
            ReadValues(Join(Literals(Meanings(fields)), ", ")) == Some(Meanings(fields))
  {
    var fields := Split(line);
    forall k | 0 <= k < |fields| ensures Printable(Meanings(fields)[k]) { MeaningPrintable(fields[k]); }
    ValuesRoundTrip(Meanings(fields));
  }

  /** Splitting is undone by joining with commas, and no field contains one: the fields are exactly the text
      between the commas. */
  lemma {:induction false} SplitJoin(line: string)
    ensures Join(Split(line), ",") == line
    ensures forall k :: 0 <= k < |Split(line)| ==> ',' !in Split(line)[k]
    decreases |line|
  {
    hide Join;
    if line == [] {
      JoinOne([], ",");
    } else {
      var rest := Split(line[1..]);
      SplitJoin(line[1..]);
      assert line == [line[0]] + line[1..];
      if line[0] == ',' {
        JoinCons([], rest, ",");
      } else {
        JoinExtend(line[0], rest, ",");
      }
    }
  }

  lemma JoinOne(p: string, sep: string)
    ensures Join([p], sep) == p
  {}

  lemma JoinCons(p: string, parts: seq<string>, sep: string)
    requires parts != []
    ensures Join([p] + parts, sep) == p + sep + Join(parts, sep)
  {
    assert ([p] + parts)[1..] == parts;
  }

  lemma JoinExtend(c: char, parts: seq<string>, sep: string)
    requires parts != []
    ensures Join([[c] + parts[0]] + parts[1..], sep) == [c] + Join(parts, sep)
  {
    var more := [[c] + parts[0]] + parts[1..];
    assert more[1..] == parts[1..];
    if |parts| > 1 {
      assert [c] + (parts[0] + sep + Join(parts[1..], sep)) == [c] + parts[0] + sep + Join(parts[1..], sep);
    }
  }

  /** Trimming takes blanks off both ends and nothing else. */
  lemma TrimExactly(f: string) returns (left: string, right: string)
    ensures f == left + Trim(f) + right
    ensures (forall k :: 0 <= k < |left| ==> Blank(left[k])) && (forall k :: 0 <= k < |right| ==> Blank(right[k]))
    ensures Trim(f) != [] ==> !Blank(Trim(f)[0]) && !Blank(Trim(f)[|Trim(f)| - 1])
  {
    left := LeftBlanks(f);
    right := RightBlanks(TrimLeft(f));
  }

  lemma {:induction false} LeftBlanks(f: string) returns (left: string)
    ensures f == left + TrimLeft(f) && forall k :: 0 <= k < |left| ==> Blank(left[k])
    ensures TrimLeft(f) != [] ==> !Blank(TrimLeft(f)[0])
  {
    if f != [] && Blank(f[0]) {
      left := LeftBlanks(f[1..]);
      left := [f[0]] + left;
    } else {
      left := [];
    }
  }

  lemma {:induction false} RightBlanks(f: string) returns (right: string)
    ensures f == TrimRight(f) + right && forall k :: 0 <= k < |right| ==> Blank(right[k])
    ensures TrimRight(f) != [] ==> !Blank(TrimRight(f)[|TrimRight(f)| - 1])
  {
    if f != [] && Blank(f[|f| - 1]) {
      right := RightBlanks(f[..|f| - 1]);
      right := right + [f[|f| - 1]];
    } else {
      right := [];
    }
  }

  /** Different lists of values are never printed alike. */
  lemma PrintingInjective(a: seq<Value>, b: seq<Value>)
    requires a != [] && b != [] && (forall k :: 0 <= k < |a| ==> Printable(a[k]))
    requires (forall k :: 0 <= k < |b| ==> Printable(b[k])) && Join(Literals(a), ", ") == Join(Literals(b), ", ")
    ensures a == b
  {
    ValuesRoundTrip(a);
    ValuesRoundTrip(b);
  }

  // ---- what a field means ----

  predicate AllIn(t: string, chars: string) { forall k :: 0 <= k < |t| ==> t[k] in chars }

  /** Digits and dots, at least one, after at most one minus sign. */
  predicate NumberText(f: string)
  {
    || (f != "" && AllIn(f, "0123456789."))
    || (|f| > 1 && f[0] == '-' && AllIn(f[1..], "0123456789."))
  }

  lemma CharClasses(c: char)
    ensures Blank(c) <==> c in " \t"
    ensures NumberChar(c) <==> c in "0123456789."
  {
    var digits := "0123456789.";
    assert forall k :: 0 <= k < 10 ==> digits[k] as int == 48 + k;
    if '0' <= c <= '9' { assert digits[c as int - 48] == c; }
    assert digits[10] == '.';
    var blanks := " \t";
    assert blanks[0] == ' ' && blanks[1] == '\t';
  }

  lemma NumberExactly(f: string)
    ensures IsNumber(f) <==> NumberText(f)
  {
    DigitsExactly(f);
    if f != "" && f[0] == '-' {
      CharClasses('-');
      DigitsExactly(f[1..]);
    }
  }

  lemma DigitsExactly(t: string)
    ensures (forall k :: 0 <= k < |t| ==> NumberChar(t[k])) <==> AllIn(t, "0123456789.")
  {
    forall k | 0 <= k < |t| ensures NumberChar(t[k]) <==> t[k] in "0123456789."
    {
      CharClasses(t[k]);
    }
  }

  lemma {:induction false} LeftTrimmed(left: string, f: string)
    requires AllIn(left, " \t") && (f == "" || f[0] !in " \t")
    ensures TrimLeft(left + f) == f
    decreases |left|
  {
    if left == "" {
      assert left + f == f;
      if f != "" { CharClasses(f[0]); }
    } else {
      CharClasses(left[0]);
      assert (left + f)[1..] == left[1..] + f;
      LeftTrimmed(left[1..], f);
    }
  }

  lemma {:induction false} RightTrimmed(f: string, right: string)
    requires AllIn(right, " \t") && (f == "" || f[|f| - 1] !in " \t")
    ensures TrimRight(f + right) == f
    decreases |right|
  {
    if right == "" {
      assert f + right == f;
      if f != "" { CharClasses(f[|f| - 1]); }
    } else {
      CharClasses(right[|right| - 1]);
      assert (f + right)[..|f + right| - 1] == f + right[..|right| - 1];
      RightTrimmed(f, right[..|right| - 1]);
    }
  }

  /** What becomes of a field, blanks around it put aside: NULL if nothing or the word NULL is left, itself if
      it is a number, and otherwise quoted. */
  lemma FieldMeaning(left: string, f: string, right: string)
    requires AllIn(left, " \t") && AllIn(right, " \t")
    requires f != "" ==> f[0] !in " \t" && f[|f| - 1] !in " \t"
    ensures var v := Meaning(left + f + right);
            && v == (if f == "" || f == "NULL" then Null else if NumberText(f) then Number(f) else Str(f))
            && Literal(v) == (if f == "" || f == "NULL" then "NULL"
                              else if NumberText(f) then f else "'" + DoubleQuotes(f) + "'")
  {
    hide IsNumber, NumberText, Trim, DoubleQuotes, AllIn;
    NumberExactly(f);
    Trimmed(left, f, right);
  }

  lemma Trimmed(left: string, f: string, right: string)
    requires AllIn(left, " \t") && AllIn(right, " \t")
    requires f != "" ==> f[0] !in " \t" && f[|f| - 1] !in " \t"
    ensures Trim(left + f + right) == f
  {
    hide TrimLeft, TrimRight;
    if f == "" {
      assert left + f + right == left + right + "";
      assert AllIn(left + right, " \t");
      LeftTrimmed(left + right, "");
      RightTrimmed("", "");
      assert "" + "" == "";
    } else {
      assert left + f + right == left + (f + right);
      LeftTrimmed(left, f + right);
      RightTrimmed(f, right);
    }
  }
}
