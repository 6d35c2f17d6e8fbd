/**
 * The COPY command the bulk writer opens its channel with
 * (PostgresBulkDatabaseWriter.createCopyMgrSql): the CSV form of
 * PostgreSQL's COPY ... FROM STDIN, listing the target's non-blank columns.
 */
module CopyCommand {
  import opened Types

  /** What follows the column list: comma-delimited CSV with ' as the quote character. */
  const CopySuffix: string := "FROM STDIN with delimiter ',' csv quote ''''"

  /** Character.isWhitespace of Java 7 and 8 (Unicode 6.0 and 6.2): the Unicode space, line
      and paragraph separators except the no-break spaces, plus the ASCII controls tab
      through carriage return and 28 to 31.  U+180E MONGOLIAN VOWEL SEPARATOR is a space
      separator in those Unicode versions; later JDKs no longer count it. */
  predicate IsJavaWhitespace(c: char)
  {
    var i := c as int;
    9 <= i <= 13 || 28 <= i <= 32 || i == 0x1680 || i == 0x180E || 0x2000 <= i <= 0x2006 || 0x2008 <= i <= 0x200A
    || i == 0x2028 || i == 0x2029 || i == 0x205F || i == 0x3000
  }

  /** StringUtils.isBlank: empty or whitespace only. */
  predicate IsBlank(s: string)
  {
    s == [] || (IsJavaWhitespace(s[0]) && IsBlank(s[1..]))
  }

  /** A string is blank exactly when each of its characters is whitespace. */
  lemma {:induction false} IsBlankMeaning(s: string)
    ensures IsBlank(s) <==> forall k :: 0 <= k < |s| ==> IsJavaWhitespace(s[k])
  {
    if s != [] {
      IsBlankMeaning(s[1..]);
      assert forall k :: 1 <= k < |s| ==> s[k] == s[1..][k - 1];
    }
  }

  /** The names of the non-blank columns, in column order. */
  function NonBlankNames(columns: seq<Column>): seq<string>
  {
    if columns == [] then []
    else
      var last := columns[|columns| - 1].name;
      NonBlankNames(columns[..|columns| - 1]) + (if IsBlank(last) then [] else [last])
  }

  /** Each name between two quote tokens. */
  function Quoted(quote: string, names: seq<string>): (r: seq<string>)
    ensures |r| == |names|
    ensures forall k :: 0 <= k < |names| ==> r[k] == quote + names[k] + quote
  {
    seq(|names|, k requires 0 <= k < |names| => quote + names[k] + quote)
  }

  /** The parts with one separator between each two adjacent parts. */
  function Join(parts: seq<string>, sep: string): string
  {
    if parts == [] then ""
    else if |parts| == 1 then parts[0]
    else Join(parts[..|parts| - 1], sep) + sep + parts[|parts| - 1]
  }

  /** The text cut at every occurrence of c (String.split without dropping empty pieces). */
  function Split(s: string, c: char): (r: seq<string>)
    ensures |r| >= 1
  {
    if s == [] then [""]
    else
      var rest := Split(s[1..], c);
      if s[0] == c then [""] + rest else [[s[0]] + rest[0]] + rest[1..]
  }

  /** The command up to its suffix: the quoted non-blank column names joined by commas; with none, only ")" follows the name. */
  function CopyHead(qualifiedName: string, quote: string, columns: seq<Column>): string
  {
    var names := NonBlankNames(columns);
    "COPY " + qualifiedName + (if names == [] then ")" else "(" + Join(Quoted(quote, names), ",") + ")")
  }

  /** The command the channel is opened with. */
  function CopySql(qualifiedName: string, quote: string, columns: seq<Column>): string
  {
    CopyHead(qualifiedName, quote, columns) + CopySuffix
  }

  /** What the loop of createCopyMgrSql appends: quote, name, quote and a comma per non-blank column. */
  function Fragments(quote: string, columns: seq<Column>): string
  {
    if columns == [] then ""
    else
      var last := columns[|columns| - 1].name;
      Fragments(quote, columns[..|columns| - 1]) + (if IsBlank(last) then "" else quote + last + quote + ",")
  }

  /** One more name quoted is one more quoted part. */
  lemma QuotedSnoc(quote: string, names: seq<string>, last: string)
    ensures Quoted(quote, names + [last]) == Quoted(quote, names) + [quote + last + quote]
  {
  }

  /** The appended fragments are the joined column list plus one trailing comma (nothing at all when no name counts). */
  lemma {:induction false} FragmentsJoin(quote: string, columns: seq<Column>)
    ensures var names := NonBlankNames(columns);
      Fragments(quote, columns) == if names == [] then "" else Join(Quoted(quote, names), ",") + ","
  {
    if columns != [] {
      var init, last := columns[..|columns| - 1], columns[|columns| - 1].name;
      FragmentsJoin(quote, init);
      var before := NonBlankNames(init);
      if IsBlank(last) {
        assert NonBlankNames(columns) == before;
        assert Fragments(quote, columns) == Fragments(quote, init);
      } else {
        assert NonBlankNames(columns) == before + [last];
        var part := quote + last + quote;
        assert Fragments(quote, columns) == Fragments(quote, init) + (part + ",");
        QuotedSnoc(quote, before, last);
        var q := Quoted(quote, before) + [part];
        assert q[..|q| - 1] == Quoted(quote, before);
        if before != [] {
          assert Join(q, ",") == Join(Quoted(quote, before), ",") + "," + part;
        }
      }
    }
  }

  lemma {:induction false} SplitConcat(a: string, c: char, b: string)
    ensures Split(a + [c] + b, c) == Split(a, c) + Split(b, c)
  {
    if a == [] {
      assert a + [c] + b == [c] + b;
      assert ([c] + b)[1..] == b;
    } else {
      assert (a + [c] + b)[1..] == a[1..] + [c] + b;
      SplitConcat(a[1..], c, b);
    }
  }

  lemma {:induction false} SplitWithout(s: string, c: char)
    requires c !in s
    ensures Split(s, c) == [s]
  {
    if s != [] {
      assert s[0] != c;
      assert c !in s[1..] by {
        forall k | 0 <= k < |s[1..]| ensures s[1..][k] != c {
          assert s[1..][k] == s[k + 1];
        }
      }
      SplitWithout(s[1..], c);
      assert [s[0]] + s[1..] == s;
    }
  }

  /** Joining parts that hold no comma with commas can be undone by splitting at the commas. */
  lemma {:induction false} SplitJoin(parts: seq<string>)
    requires parts != []
    requires forall k :: 0 <= k < |parts| ==> ',' !in parts[k]
    ensures Split(Join(parts, ","), ',') == parts
  {
    var last := parts[|parts| - 1];
    SplitWithout(last, ',');
    if |parts| > 1 {
      var init := parts[..|parts| - 1];
      SplitJoin(init);
      assert "," == [','];
      SplitConcat(Join(init, ","), ',', last);
      assert init + [last] == parts;
    }
  }

  lemma {:induction false} NonBlankNamesWithout(columns: seq<Column>, c: char)
    requires forall j :: 0 <= j < |columns| ==> c !in columns[j].name
    ensures forall k :: 0 <= k < |NonBlankNames(columns)| ==> c !in NonBlankNames(columns)[k]
  {
    if columns != [] {
      NonBlankNamesWithout(columns[..|columns| - 1], c);
    }
  }

  /**
   * The column list keeps exactly the columns whose names are not blank: no
   * kept name is blank, and the list is empty only when every name is.
   */
  lemma {:induction false} NonBlankNamesBlank(columns: seq<Column>)
    ensures forall k :: 0 <= k < |NonBlankNames(columns)| ==> !IsBlank(NonBlankNames(columns)[k])
    ensures |NonBlankNames(columns)| <= |columns|
    ensures NonBlankNames(columns) == [] <==> forall j :: 0 <= j < |columns| ==> IsBlank(columns[j].name)
  {
    if columns != [] {
      var init := columns[..|columns| - 1];
      NonBlankNamesBlank(init);
      assert forall j :: 0 <= j < |init| ==> init[j] == columns[j];
    }
  }

  /** A name holding a character that is not whitespace is not blank. */
  lemma {:induction false} NonWhitespaceNotBlank(s: string, i: int)
    requires 0 <= i < |s| && !IsJavaWhitespace(s[i])
    ensures !IsBlank(s)
  {
    if i > 0 {
      NonWhitespaceNotBlank(s[1..], i - 1);
    }
  }

  /**
   * Which names count as blank: the empty name and names of ASCII spaces and
   * controls do; a name of a no-break space, or with any ASCII letter or
   * digit, does not.
   */
  lemma BlankNames()
    ensures IsBlank("") && IsBlank(" ") && IsBlank("\t\n\r") && IsBlank("\U{2003}\U{3000}")
    ensures !IsBlank("\U{00A0}") && !IsBlank("\U{202F}")
    ensures forall s: string, i :: 0 <= i < |s| && ('a' <= s[i] <= 'z' || 'A' <= s[i] <= 'Z' || '0' <= s[i] <= '9') ==>
      !IsBlank(s)
  {
    assert !IsJavaWhitespace("\U{00A0}"[0]) && !IsJavaWhitespace("\U{202F}"[0]);
    forall s: string, i | 0 <= i < |s| && ('a' <= s[i] <= 'z' || 'A' <= s[i] <= 'Z' || '0' <= s[i] <= '9')
      ensures !IsBlank(s)
    {
      NonWhitespaceNotBlank(s, i);
    }
  }

  /**
   * When neither the quote token nor any column name holds a comma, the
   * column list of the command reads back, split at its commas, as exactly
   * the quoted non-blank names in column order.
   */
  lemma ColumnListReadsBack(quote: string, columns: seq<Column>)
    requires ',' !in quote
    requires forall j :: 0 <= j < |columns| ==> ',' !in columns[j].name
    requires NonBlankNames(columns) != []
    ensures Split(Join(Quoted(quote, NonBlankNames(columns)), ","), ',') == Quoted(quote, NonBlankNames(columns))
  {
    var names := NonBlankNames(columns);
    NonBlankNamesWithout(columns, ',');
    var parts := Quoted(quote, names);
    forall k | 0 <= k < |parts| ensures ',' !in parts[k] {
      assert parts[k] == quote + names[k] + quote;
    }
    SplitJoin(parts);
  }

  /** Overwriting the trailing character of the appended text with ')' gives the command up to its suffix. */
  lemma CloseColumnList(qualifiedName: string, quote: string, columns: seq<Column>, sql: string)
    requires sql == "COPY " + qualifiedName + "(" + Fragments(quote, columns)
    ensures |sql| > 0 && sql[..|sql| - 1] + ")" == CopyHead(qualifiedName, quote, columns)
  {
    FragmentsJoin(quote, columns);
    var head := "COPY " + qualifiedName;
    var names := NonBlankNames(columns);
    var list := if names == [] then "" else "(" + Join(Quoted(quote, names), ",");
    assert sql == head + list + [if names == [] then '(' else ','];
    assert sql[..|sql| - 1] == head + list;
  }

  /** createCopyMgrSql: appends each non-blank column, then overwrites the last character with ')'. */
  method CreateCopyMgrSql(qualifiedName: string, quote: string, columns: seq<Column>) returns (sql: string)
    ensures sql == CopySql(qualifiedName, quote, columns)
  {
    sql := "COPY " + qualifiedName + "(";
    for k := 0 to |columns|
      invariant sql == "COPY " + qualifiedName + "(" + Fragments(quote, columns[..k])
    {
      var columnName := columns[k].name;
      assert columns[..k + 1][..k] == columns[..k];
      if !IsBlank(columnName) {
        sql := sql + quote + columnName + quote + ",";
      }
    }
    assert columns[..|columns|] == columns;
    CloseColumnList(qualifiedName, quote, columns, sql);
    // StringBuilder.replace(length - 1, length, ")")
    sql := sql[..|sql| - 1] + ")";
    sql := sql + CopySuffix;
    assert sql == CopyHead(qualifiedName, quote, columns) + CopySuffix;
  }
}
