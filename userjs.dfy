/** The user.js text that the development message handler builds for an
    `APPLY_SETTINGS` request: two comment lines, an empty line, then one
    `user_pref("<key>", <value>);` line per settings entry, joined with line
    feeds. */
module UserJs {
  import opened Wrappers
  import opened JsValues
  import opened Text
  import Decimal

  /** `value.replace(/["\\]/g, '\\$&')`: a backslash before every double
      quote and every backslash. */
  function Escape(s: string): (r: string)
    ensures |s| <= |r| <= 2 * |s|
  {
    if s == [] then [] else EscapeChar(s[0]) + Escape(s[1..])
  }

  function EscapeChar(c: char): string {
    if c == '"' || c == '\\' then ['\\', c] else [c]
  }

  /** Reads the body of a double-quoted literal whose opening quote has been
      consumed: up to the first unescaped `"`, where `\"` stands for `"` and
      `\\` for `\`. Gives the text and what follows the closing quote. */
  function ReadQuoted(t: string): Option<(string, string)>
    decreases |t|
  {
    if t == [] then None
    else if t[0] == '"' then Some(([], t[1..]))
    else if t[0] == '\\' then
      if |t| >= 2 && (t[1] == '"' || t[1] == '\\') then
        match ReadQuoted(t[2..])
        case None => None
        case Some((s, rest)) => Some(([t[1]] + s, rest))
      else None
    else
      match ReadQuoted(t[1..])
      case None => None
      case Some((s, rest)) => Some(([t[0]] + s, rest))
  }

  /** An escaped string, closed by a quote, reads back as the original string,
      and reading stops exactly at that closing quote. */
  lemma {:induction false} ReadEscaped(s: string, rest: string)
    ensures ReadQuoted(Escape(s) + "\"" + rest) == Some((s, rest))
  {
    if s == [] {
      assert Escape(s) + "\"" + rest == "\"" + rest;
    } else {
      var head, more := EscapeChar(s[0]), Escape(s[1..]);
      assert Escape(s) == head + more;
      ReadEscaped(s[1..], rest);
      Regroup(head, more, "\"", rest);
      ReadEscapedChar(s[0], more + "\"" + rest, s[1..], rest);
      assert [s[0]] + s[1..] == s;
    }
  }

  lemma Regroup(a: string, b: string, q: string, r: string)
    ensures a + b + q + r == a + (b + q + r)
  {
  }

  /** One escaped character is read back as itself. */
  lemma ReadEscapedChar(c: char, tail: string, s: string, rest: string)
    requires ReadQuoted(tail) == Some((s, rest))
    ensures ReadQuoted(EscapeChar(c) + tail) == Some(([c] + s, rest))
  {
    if c == '"' || c == '\\' {
      assert (['\\', c] + tail)[2..] == tail;
    } else {
      assert ([c] + tail)[1..] == tail;
    }
  }

  /** A string without quotes or backslashes is left as it is. */
  lemma {:induction false} EscapePlain(s: string)
    requires forall i :: 0 <= i < |s| ==> s[i] != '"' && s[i] != '\\'
    ensures Escape(s) == s
  {
    if s != [] {
      EscapePlain(s[1..]);
      assert [s[0]] + s[1..] == s;
    }
  }

  /** `String(v)`, the text a template literal `${v}` inserts for a value. An
      array is its elements joined with commas, null elements as nothing. */
  function JsString(v: Json): (r: string)
    ensures v.JNum? ==> Decimal.ParseInt(r) == Some(v.n)
    decreases v
  {
    match v
    case JNull => "null"
    case JBool(b) => if b then "true" else "false"
    case JNum(n) => Decimal.IntToStringRoundTrip(n); Decimal.IntToString(n)
    case JStr(s) => s
    case JArr(items) =>
      Join(seq(|items|, i requires 0 <= i < |items| =>
        if items[i].JNull? then "" else JsString(items[i])), ",")
    case JObj(_) => "[object Object]"
  }

  /** The value part of a preference line: strings quoted and escaped, all
      other values inserted as-is. */
  function FormatValue(v: Json): (r: string)
    ensures v.JStr? ==> |r| >= 2 + |v.s| && r[0] == '"' && r[|r| - 1] == '"'
  {
    if v.JStr? then "\"" + Escape(v.s) + "\"" else JsString(v)
  }

  const PrefPrefix: string := "user_pref(\""

  /** One line per setting; the key is inserted without escaping. */
  function PrefLine(key: string, v: Json): string {
    PrefPrefix + key + "\", " + FormatValue(v) + ");"
  }

  const TitleLine: string := "// user.js Generator - Generated Settings"

  /** The lines of the file; the timestamp is the `toISOString()` of the moment
      of generation. */
  function Lines(timestamp: string, entries: Fields): seq<string> {
    [TitleLine, "// Generated on: " + timestamp, ""]
      + seq(|entries|, i requires 0 <= i < |entries| => PrefLine(entries[i].0, entries[i].1))
  }

  /** The file text; it always opens with the two comment lines. */
  function UserJsContent(timestamp: string, entries: Fields): (r: string)
    ensures StartsWith(r, TitleLine + "\n" + "// Generated on: " + timestamp + "\n")
  {
    var ls := Lines(timestamp, entries);
    var rest := Join(ls[2..], "\n");
    assert Join(ls[1..], "\n") == ls[1] + "\n" + rest by {
      assert ls[1..][1..] == ls[2..];
    }
    assert Join(ls, "\n") == TitleLine + "\n" + ("// Generated on: " + timestamp) + "\n" + rest;
    Join(ls, "\n")
  }

  /** No line of the file would be broken by a line feed inside it. */
  ghost predicate SingleLineParts(timestamp: string, entries: Fields) {
    && '\n' !in timestamp
    && forall i :: 0 <= i < |entries| ==> '\n' !in entries[i].0 && '\n' !in FormatValue(entries[i].1)
  }

  /** Read line by line, the file is the three header lines followed by exactly
      one preference line per entry, in entry order. */
  lemma UserJsLineStructure(timestamp: string, entries: Fields)
    requires SingleLineParts(timestamp, entries)
    ensures |Split(UserJsContent(timestamp, entries), '\n')| == 3 + |entries|
    ensures Split(UserJsContent(timestamp, entries), '\n')[..3] == [TitleLine, "// Generated on: " + timestamp, ""]
    ensures forall i :: 0 <= i < |entries| ==>
      Split(UserJsContent(timestamp, entries), '\n')[3 + i] == PrefLine(entries[i].0, entries[i].1)
  {
    var ls := Lines(timestamp, entries);
    HeaderSingleLine(timestamp);
    forall i | 3 <= i < |ls| ensures '\n' !in ls[i] {
      PrefLineSingleLine(entries[i - 3].0, entries[i - 3].1);
    }
    assert forall i :: 0 <= i < 3 ==> '\n' !in ls[i];
    SplitJoin(ls, '\n');
  }

  lemma HeaderSingleLine(timestamp: string)
    requires '\n' !in timestamp
    ensures '\n' !in TitleLine && '\n' !in "// Generated on: " + timestamp
  {
    assert forall i :: 0 <= i < |TitleLine| ==> TitleLine[i] != '\n';
    assert forall i :: 0 <= i < |"// Generated on: "| ==> "// Generated on: "[i] != '\n';
  }

  lemma PrefLineSingleLine(key: string, v: Json)
    requires '\n' !in key && '\n' !in FormatValue(v)
    ensures '\n' !in PrefLine(key, v)
  {
    assert forall i :: 0 <= i < |PrefPrefix| ==> PrefPrefix[i] != '\n';
    assert '\n' !in "\", " && '\n' !in ");";
  }

  /** Reads the value part of a preference line back. */
  function ParseLiteral(t: string): Option<Json> {
    if t == "true" then Some(JBool(true))
    else if t == "false" then Some(JBool(false))
    else if t == "null" then Some(JNull)
    else if |t| >= 1 && t[0] == '"' then
      match ReadQuoted(t[1..])
      case Some((s, rest)) => if rest == [] then Some(JStr(s)) else None
      case None => None
    else
      match Decimal.ParseInt(t)
      case Some(n) => Some(JNum(n))
      case None => None
  }

  /** Reads a line `user_pref("<key>", <value>);` back into its key and value. */
  function ParsePrefLine(line: string): Option<(string, Json)> {
    if !StartsWith(line, PrefPrefix) then None
    else
      match ReadQuoted(line[|PrefPrefix|..])
      case None => None
      case Some((key, rest)) =>
        if |rest| >= 4 && StartsWith(rest, ", ") && EndsWith(rest, ");") then
          match ParseLiteral(rest[2..|rest| - 2])
          case Some(v) => Some((key, v))
          case None => None
        else None
  }

  /** The values a preference line can carry without loss. */
  predicate IsScalar(v: Json) {
    v.JNull? || v.JBool? || v.JNum? || v.JStr?
  }

  lemma LiteralRoundTrip(v: Json)
    requires IsScalar(v)
    ensures ParseLiteral(FormatValue(v)) == Some(v)
  {
    match v
    case JStr(s) => StringLiteralRoundTrip(s);
    case JNum(n) => NumberLiteralRoundTrip(n);
    case _ =>
  }

  lemma StringLiteralRoundTrip(s: string)
    ensures ParseLiteral(FormatValue(JStr(s))) == Some(JStr(s))
  {
    var t := FormatValue(JStr(s));
    assert t == "\"" + Escape(s) + "\"";
    assert t[0] == '"';
    assert t != "true" && t != "false" && t != "null";
    assert t[1..] == Escape(s) + "\"" + [];
    ReadEscaped(s, []);
  }

  lemma NumberLiteralRoundTrip(n: int)
    ensures ParseLiteral(FormatValue(JNum(n))) == Some(JNum(n))
  {
    var t := Decimal.IntToString(n);
    Decimal.IntToStringRoundTrip(n);
    assert t[0] == '-' || Decimal.IsDigit(t[0]);
    assert t != "true" && t != "false" && t != "null";
  }

  /** A preference line whose key has no quote or backslash reads back as the
      key and value it was made from, so the unescaped key and the escaped
      string value are unambiguous in the file. */
  lemma PrefLineRoundTrip(key: string, v: Json)
    requires forall i :: 0 <= i < |key| ==> key[i] != '"' && key[i] != '\\'
    requires IsScalar(v)
    ensures ParsePrefLine(PrefLine(key, v)) == Some((key, v))
  {
    var f := FormatValue(v);
    var rest := ", " + f + ");";
    PrefLineShape(key, f);
    EscapePlain(key);
    ReadEscaped(key, rest);
    ValueShape(f);
    LiteralRoundTrip(v);
  }

  lemma PrefLineShape(key: string, f: string)
    ensures var line := PrefPrefix + key + "\", " + f + ");";
      StartsWith(line, PrefPrefix) && line[|PrefPrefix|..] == key + "\"" + (", " + f + ");")
  {
    var line := PrefPrefix + key + "\", " + f + ");";
    assert line == PrefPrefix + (key + "\"" + (", " + f + ");"));
  }

  lemma ValueShape(f: string)
    ensures var rest := ", " + f + ");";
      |rest| >= 4 && StartsWith(rest, ", ") && EndsWith(rest, ");") && rest[2..|rest| - 2] == f
  {
    var rest := ", " + f + ");";
    assert rest[..2] == ", ";
    assert rest[|rest| - 2..] == ");";
    assert rest[2..|rest| - 2] == f;
  }
}
