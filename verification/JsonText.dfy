/**
 JSON values as Python holds them (objects keep insertion order), the text `json.dumps` writes with
 `sort_keys=True, separators=(",", ":"), ensure_ascii=False`, and a parser that undoes it.  Strings
 follow section 7 of RFC 8259.

 `Meaning` is the value a JSON text denotes, with unordered objects.  The main result,
 `CanonicalIsInjective`, says that two values have the same canonical text exactly when they mean
 the same.
 */
module JsonText {
  import opened Wrappers
  import opened Sorting
  import opened Text

  datatype Json =
    | Null
    | Bool(b: bool)
    | Int(n: int)
    | Float(repr: string)       // the text Python's float.__repr__ gives
    | Str(s: string)
    | Arr(items: seq<Json>)
    | Obj(fields: seq<Field>)

  datatype Field = Field(key: string, value: Json)

  datatype Value =
    | VNull | VBool(b: bool) | VInt(n: int) | VFloat(repr: string) | VStr(s: string)
    | VArr(items: seq<Value>)
    | VObj(fields: map<string, Value>)

  // ---------------------------------------------------------------- words: numbers and literals

  predicate IsWordChar(c: char) {
    '0' <= c <= '9' || 'a' <= c <= 'z' || 'A' <= c <= 'Z' || c == '+' || c == '-' || c == '.'
  }

  predicate AllWord(w: string) {
    forall i :: 0 <= i < |w| ==> IsWordChar(w[i])
  }

  predicate IsDigit(c: char) {
    '0' <= c <= '9'
  }

  predicate AllDigits(d: string) {
    d != "" && forall i :: 0 <= i < |d| ==> IsDigit(d[i])
  }

  predicate IsDecimal(w: string) {
    if w != "" && w[0] == '-' then AllDigits(w[1..]) else AllDigits(w)
  }

  function Digit(n: nat): char
    requires n < 10
  {
    '0' + n as char
  }

  function DecimalNat(n: nat): string {
    if n < 10 then [Digit(n)] else DecimalNat(n / 10) + [Digit(n % 10)]
  }

  function Decimal(n: int): string {
    if n < 0 then "-" + DecimalNat(-n) else DecimalNat(n)
  }

  function ReadNat(w: string): int
  {
    if w == "" then 0 else ReadNat(w[..|w| - 1]) * 10 + (w[|w| - 1] as int - '0' as int)
  }

  function ReadDecimal(w: string): int {
    if w != "" && w[0] == '-' then -ReadNat(w[1..]) else ReadNat(w)
  }

  lemma {:induction false} DecimalNatSpec(n: nat)
    ensures DecimalNat(n) != "" && forall i :: 0 <= i < |DecimalNat(n)| ==> IsDigit(DecimalNat(n)[i])
    ensures ReadNat(DecimalNat(n)) == n
  {
    if n < 10 {
      assert [Digit(n)][..0] == "";
    } else {
      DecimalNatSpec(n / 10);
      var w := DecimalNat(n);
      assert w[..|w| - 1] == DecimalNat(n / 10);
    }
  }

  lemma DecimalSpec(n: int)
    ensures IsDecimal(Decimal(n)) && AllWord(Decimal(n)) && ReadDecimal(Decimal(n)) == n
  {
    if n < 0 {
      DecimalNatSpec(-n);
      assert Decimal(n)[1..] == DecimalNat(-n);
    } else {
      DecimalNatSpec(n);
      assert IsDigit(Decimal(n)[0]);
    }
  }

  /** A float's text is one word that is neither an integer nor a literal. */
  predicate IsFloatRepr(w: string) {
    w != "" && AllWord(w) && !IsDecimal(w) && w != "null" && w != "true" && w != "false"
  }

  function ReadWord(w: string): Json {
    if w == "null" then Null
    else if w == "true" then Bool(true)
    else if w == "false" then Bool(false)
    else if IsDecimal(w) then Int(ReadDecimal(w))
    else Float(w)
  }

  function WordLength(s: string): (n: nat)
    ensures n <= |s|
  {
    if s == "" || !IsWordChar(s[0]) then 0 else 1 + WordLength(s[1..])
  }

  lemma {:induction false} WordLengthSpec(w: string, rest: string)
    requires AllWord(w) && (rest == "" || !IsWordChar(rest[0]))
    ensures WordLength(w + rest) == |w|
  {
    if w == "" {
      assert w + rest == rest;
    } else {
      assert (w + rest)[1..] == w[1..] + rest;
      WordLengthSpec(w[1..], rest);
    }
  }

  // ---------------------------------------------------------------- strings

  function Hex(n: nat): char
    requires n < 16
  {
    if n < 10 then '0' + n as char else 'a' + (n - 10) as char
  }

  function UnHex(c: char): Option<nat> {
    if '0' <= c <= '9' then Some(c as int - '0' as int)
    else if 'a' <= c <= 'f' then Some(c as int - 'a' as int + 10)
    else None
  }

  /** The characters that are escaped are exactly `"`, `\` and those below U+0020. */
  function Escape(c: char): string {
    if c == '"' then "\\\""
    else if c == '\\' then "\\\\"
    else if c == '\n' then "\\n"
    else if c == '\r' then "\\r"
    else if c == '\t' then "\\t"
    else if c == '\U{0C}' then "\\f"
    else if c == '\U{08}' then "\\b"
    else if c < ' ' then "\\u00" + [Hex(c as int / 16), Hex(c as int % 16)]
    else [c]
  }

  function EscapeAll(s: string): string {
    if s == "" then "" else Escape(s[0]) + EscapeAll(s[1..])
  }

  /** One possibly escaped character, with the number of characters it took. */
  function ReadChar(s: string): (r: Option<(char, nat)>)
    ensures r.Some? ==> 0 < r.value.1 <= |s|
  {
    if s == "" || s[0] == '"' then None
    else if s[0] != '\\' then Some((s[0], 1))
    else if |s| < 2 then None
    else if s[1] == '"' then Some(('"', 2))
    else if s[1] == '\\' then Some(('\\', 2))
    else if s[1] == 'n' then Some(('\n', 2))
    else if s[1] == 'r' then Some(('\r', 2))
    else if s[1] == 't' then Some(('\t', 2))
    else if s[1] == 'f' then Some(('\U{0C}', 2))
    else if s[1] == 'b' then Some(('\U{08}', 2))
    else if s[1] == 'u' && |s| >= 6 && s[2] == '0' && s[3] == '0' && UnHex(s[4]).Some? && UnHex(s[5]).Some?
    then Some(((UnHex(s[4]).value * 16 + UnHex(s[5]).value) as char, 6))
    else None
  }

  /** The characters up to the closing quote, and what follows it. */
  function ParseString(s: string): (r: Option<(string, string)>)
    ensures r.Some? ==> |r.value.1| < |s|
    decreases |s|
  {
    if s == "" then None
    else if s[0] == '"' then Some(("", s[1..]))
    else match ReadChar(s)
      case None => None
      case Some((c, n)) =>
        match ParseString(s[n..])
        case None => None
        case Some((t, rest)) => Some(([c] + t, rest))
  }

  lemma ReadEscape(c: char, rest: string)
    ensures ReadChar(Escape(c) + rest) == Some((c, |Escape(c)|))
    ensures Escape(c)[0] != '"'
  {
    var e := Escape(c);
    assert forall i :: 0 <= i < |e| ==> (e + rest)[i] == e[i];
    if c < ' ' {
      var n := c as int;
      assert n == n / 16 * 16 + n % 16;
    }
  }

  lemma {:induction false} ParseEscaped(s: string, rest: string)
    ensures ParseString(EscapeAll(s) + "\"" + rest) == Some((s, rest))
  {
    if s == "" {
      assert EscapeAll(s) + "\"" + rest == ['"'] + rest;
      assert (['"'] + rest)[1..] == rest;
    } else {
      var tail := EscapeAll(s[1..]) + "\"" + rest;
      assert EscapeAll(s) + "\"" + rest == Escape(s[0]) + tail;
      ParseEscaped(s[1..], rest);
      ParseOneMore(s[0], tail, s[1..], rest);
      assert s == [s[0]] + s[1..];
    }
  }

  lemma ParseOneMore(c: char, tail: string, t: string, rest: string)
    requires ParseString(tail) == Some((t, rest))
    ensures ParseString(Escape(c) + tail) == Some(([c] + t, rest))
  {
    ReadEscape(c, tail);
    var text := Escape(c) + tail;
    assert text[0] == Escape(c)[0];
    assert text[|Escape(c)|..] == tail;
  }

  function Quote(s: string): string {
    "\"" + EscapeAll(s) + "\""
  }

  // ---------------------------------------------------------------- printer

  function Print(j: Json): string
    decreases j, 1
  {
    match j
    case Null => "null"
    case Bool(b) => if b then "true" else "false"
    case Int(n) => Decimal(n)
    case Float(repr) => repr
    case Str(s) => Quote(s)
    case Arr(items) => "[" + PrintItems(items) + "]"
    case Obj(fields) => "{" + PrintFields(fields) + "}"
  }

  function PrintItems(items: seq<Json>): string
    decreases items, 0
  {
    if items == [] then ""
    else if |items| == 1 then Print(items[0])
    else Print(items[0]) + "," + PrintItems(items[1..])
  }

  function PrintFields(fields: seq<Field>): string
    decreases fields, 0
  {
    if fields == [] then ""
    else if |fields| == 1 then FieldText(fields[0])
    else FieldText(fields[0]) + "," + PrintFields(fields[1..])
  }

  function FieldText(f: Field): string
    decreases f, 2
  {
    Quote(f.key) + ":" + Print(f.value)
  }

  // ---------------------------------------------------------------- parser

  function ParseValue(s: string): (r: Option<(Json, string)>)
    ensures r.Some? ==> |r.value.1| < |s|
    decreases |s|, 0
  {
    if s == "" then None
    else if s[0] == '"' then
      (match ParseString(s[1..])
       case None => None
       case Some((t, rest)) => Some((Str(t), rest)))
    else if s[0] == '[' then
      (if StartsWith(s[1..], "]") then Some((Arr([]), s[2..]))
       else match ParseItems(s[1..])
         case None => None
         case Some((items, rest)) => Some((Arr(items), rest)))
    else if s[0] == '{' then
      (if StartsWith(s[1..], "}") then Some((Obj([]), s[2..]))
       else match ParseFields(s[1..])
         case None => None
         case Some((fields, rest)) => Some((Obj(fields), rest)))
    else
      var n := WordLength(s);
      if n == 0 then None else Some((ReadWord(s[..n]), s[n..]))
  }

  function ParseItems(s: string): (r: Option<(seq<Json>, string)>)
    ensures r.Some? ==> |r.value.1| < |s|
    decreases |s|, 1
  {
    match ParseValue(s)
    case None => None
    case Some((v, rest)) =>
      if StartsWith(rest, "]") then Some(([v], rest[1..]))
      else if StartsWith(rest, ",") then
        (match ParseItems(rest[1..])
         case None => None
         case Some((vs, rest')) => Some(([v] + vs, rest')))
      else None
  }

  function ParseFields(s: string): (r: Option<(seq<Field>, string)>)
    ensures r.Some? ==> |r.value.1| < |s|
    decreases |s|, 1
  {
    if !StartsWith(s, "\"") then None
    else match ParseString(s[1..])
      case None => None
      case Some((key, afterKey)) =>
        if !StartsWith(afterKey, ":") then None
        else match ParseValue(afterKey[1..])
          case None => None
          case Some((v, rest)) =>
            if StartsWith(rest, "}") then Some(([Field(key, v)], rest[1..]))
            else if StartsWith(rest, ",") then
              (match ParseFields(rest[1..])
               case None => None
               case Some((fs, rest')) => Some(([Field(key, v)] + fs, rest')))
            else None
  }

  // ---------------------------------------------------------------- the parser undoes the printer

  /** Floats carry a float's text, and no object has a key twice. */
  ghost predicate WellFormed(j: Json)
    decreases j
  {
    match j
    case Float(repr) => IsFloatRepr(repr)
    case Arr(items) => forall i :: 0 <= i < |items| ==> WellFormed(items[i])
    case Obj(fields) =>
      && (forall i :: 0 <= i < |fields| ==> WellFormed(fields[i].value))
      && DistinctKeys(fields)
    case _ => true
  }

  ghost predicate DistinctKeys(fields: seq<Field>) {
    forall i, j :: 0 <= i < j < |fields| ==> fields[i].key != fields[j].key
  }

  /** What can follow a value inside a text. */
  predicate Delimited(rest: string) {
    rest == "" || rest[0] == ',' || rest[0] == ']' || rest[0] == '}'
  }

  lemma WordRoundTrip(w: string, rest: string)
    requires w != "" && AllWord(w) && Delimited(rest)
    ensures ParseValue(w + rest) == Some((ReadWord(w), rest))
  {
    WordLengthSpec(w, rest);
    assert (w + rest)[0] == w[0] && IsWordChar(w[0]);
    assert (w + rest)[..|w|] == w && (w + rest)[|w|..] == rest;
  }

  lemma PrintStarts(j: Json)
    requires WellFormed(j)
    ensures Print(j) != "" && Print(j)[0] != ']' && Print(j)[0] != '}'
  {
    match j
    case Int(n) => DecimalSpec(n);
    case Float(repr) => assert IsWordChar(repr[0]);
    case _ =>
  }

  lemma {:induction false} ParsePrint(j: Json, rest: string)
    requires WellFormed(j) && Delimited(rest)
    ensures ParseValue(Print(j) + rest) == Some((j, rest))
    decreases j, 1
  {
    match j
    case Str(s) => TextRoundTrip(s, rest);
    case Arr(items) =>
      EmptyBrackets(rest);
      if items != [] {
        ParsePrintItems(items, rest);
        PrintStarts(items[0]);
        Bracketed(PrintItems(items), items, rest);
      }
    case Obj(fields) =>
      EmptyBrackets(rest);
      if fields != [] {
        ParsePrintFields(fields, rest);
        Braced(PrintFields(fields), fields, rest);
      }
    case _ => ScalarRoundTrip(j, rest);
  }

  lemma TextRoundTrip(s: string, rest: string)
    ensures ParseValue(Quote(s) + rest) == Some((Str(s), rest))
  {
    var text := Quote(s) + rest;
    assert text == "\"" + (EscapeAll(s) + "\"" + rest);
    assert text[0] == '"' && text[1..] == EscapeAll(s) + "\"" + rest;
    ParseEscaped(s, rest);
  }

  lemma ScalarRoundTrip(j: Json, rest: string)
    requires WellFormed(j) && Delimited(rest)
    requires j.Null? || j.Bool? || j.Int? || j.Float?
    ensures ParseValue(Print(j) + rest) == Some((j, rest))
  {
    LiteralsAreNotDecimal();
    match j
    case Int(n) =>
      DecimalSpec(n);
      WordRoundTrip(Decimal(n), rest);
    case Float(repr) => WordRoundTrip(repr, rest);
    case Bool(b) => WordRoundTrip(if b then "true" else "false", rest);
    case _ => WordRoundTrip("null", rest);
  }

  lemma Bracketed(body: string, items: seq<Json>, rest: string)
    requires body != "" && body[0] != ']'
    requires ParseItems(body + "]" + rest) == Some((items, rest))
    ensures ParseValue("[" + body + "]" + rest) == Some((Arr(items), rest))
  {
    var text := "[" + body + "]" + rest;
    assert text[1..] == body + "]" + rest;
    assert text[0] == '[' && text[1..][0] == body[0];
  }

  lemma Braced(body: string, fields: seq<Field>, rest: string)
    requires body != "" && body[0] != '}'
    requires ParseFields(body + "}" + rest) == Some((fields, rest))
    ensures ParseValue("{" + body + "}" + rest) == Some((Obj(fields), rest))
  {
    var text := "{" + body + "}" + rest;
    assert text[1..] == body + "}" + rest;
    assert text[0] == '{' && text[1..][0] == body[0];
  }

  lemma EmptyBrackets(rest: string)
    ensures ParseValue("[" + "" + "]" + rest) == Some((Arr([]), rest))
    ensures ParseValue("{" + "" + "}" + rest) == Some((Obj([]), rest))
  {
    var a, o := "[" + "" + "]" + rest, "{" + "" + "}" + rest;
    assert a[0] == '[' && a[1..] == "]" + rest && a[2..] == rest;
    assert o[0] == '{' && o[1..] == "}" + rest && o[2..] == rest;
  }

  lemma NotDecimal(w: string)
    requires w != "" && w[0] != '-' && !IsDigit(w[0])
    ensures !IsDecimal(w)
  {
  }

  lemma LiteralsAreNotDecimal()
    ensures !IsDecimal("null") && !IsDecimal("true") && !IsDecimal("false")
  {
    NotDecimal("null");
    NotDecimal("true");
    NotDecimal("false");
  }

  lemma {:induction false} ParsePrintItems(items: seq<Json>, rest: string)
    requires items != [] && forall i :: 0 <= i < |items| ==> WellFormed(items[i])
    ensures ParseItems(PrintItems(items) + "]" + rest) == Some((items, rest))
    decreases items, 0
  {
    var text := PrintItems(items) + "]" + rest;
    if |items| == 1 {
      var tail := "]" + rest;
      assert text == Print(items[0]) + tail;
      ParsePrint(items[0], tail);
      assert tail[1..] == rest;
      assert items == [items[0]];
    } else {
      var tail := "," + (PrintItems(items[1..]) + "]" + rest);
      assert text == Print(items[0]) + tail;
      ParsePrint(items[0], tail);
      assert tail[1..] == PrintItems(items[1..]) + "]" + rest;
      ParsePrintItems(items[1..], rest);
      assert items == [items[0]] + items[1..];
    }
  }

  lemma KeyParses(key: string, more: string)
    ensures var text := Quote(key) + ":" + more;
            text[0] == '"' && ParseString(text[1..]) == Some((key, ":" + more))
    ensures (":" + more)[1..] == more
  {
    var text := Quote(key) + ":" + more;
    assert text[1..] == EscapeAll(key) + "\"" + (":" + more);
    ParseEscaped(key, ":" + more);
  }

  lemma LastField(key: string, v: Json, more: string, rest: string)
    requires ParseValue(more) == Some((v, "}" + rest))
    ensures ParseFields(Quote(key) + ":" + more) == Some(([Field(key, v)], rest))
  {
    KeyParses(key, more);
    assert ("}" + rest)[1..] == rest;
  }

  lemma MoreFields(key: string, v: Json, more: string, others: string, fs: seq<Field>, rest: string)
    requires ParseValue(more) == Some((v, "," + others))
    requires ParseFields(others) == Some((fs, rest))
    ensures ParseFields(Quote(key) + ":" + more) == Some(([Field(key, v)] + fs, rest))
  {
    KeyParses(key, more);
    var text, afterKey, next := Quote(key) + ":" + more, ":" + more, "," + others;
    assert StartsWith(text, "\"") && StartsWith(afterKey, ":") && afterKey[1..] == more;
    assert next[0] == ',' && !StartsWith(next, "}") && StartsWith(next, ",") && next[1..] == others;
  }

  lemma FieldsText(fields: seq<Field>, rest: string)
    requires fields != []
    ensures PrintFields(fields) + "}" + rest
            == Quote(fields[0].key) + ":" + (Print(fields[0].value)
               + (if |fields| == 1 then "}" + rest else "," + (PrintFields(fields[1..]) + "}" + rest)))
  {
    var q, v := Quote(fields[0].key), Print(fields[0].value);
    if |fields| == 1 {
      Regroup(q, v, "}" + rest);
      assert PrintFields(fields) == q + ":" + v;
      assert q + ":" + v + "}" + rest == q + ":" + v + ("}" + rest);
    } else {
      var others := PrintFields(fields[1..]);
      Regroup(q, v, "," + (others + "}" + rest));
      assert PrintFields(fields) == q + ":" + v + "," + others;
      Regroup3(q + ":" + v, others, rest);
    }
  }

  lemma Regroup(q: string, v: string, tail: string)
    ensures q + ":" + v + tail == q + ":" + (v + tail)
  {
  }

  lemma Regroup3(a: string, b: string, c: string)
    ensures a + "," + b + "}" + c == a + ("," + (b + "}" + c))
  {
  }

  lemma {:induction false} ParsePrintFields(fields: seq<Field>, rest: string)
    requires fields != [] && forall i :: 0 <= i < |fields| ==> WellFormed(fields[i].value)
    ensures ParseFields(PrintFields(fields) + "}" + rest) == Some((fields, rest))
    decreases fields, 0
  {
    var f := fields[0];
    FieldsText(fields, rest);
    if |fields| == 1 {
      var tail := "}" + rest;
      ParsePrint(f.value, tail);
      LastField(f.key, f.value, Print(f.value) + tail, rest);
      assert fields == [Field(f.key, f.value)];
    } else {
      var others := PrintFields(fields[1..]) + "}" + rest;
      ParsePrint(f.value, "," + others);
      ParsePrintFields(fields[1..], rest);
      MoreFields(f.key, f.value, Print(f.value) + ("," + others), others, fields[1..], rest);
      assert fields == [Field(f.key, f.value)] + fields[1..];
    }
  }

  /** Different values print differently. */
  lemma PrintIsInjective(a: Json, b: Json)
    requires WellFormed(a) && WellFormed(b) && Print(a) == Print(b)
    ensures a == b
  {
    assert Print(a) + "" == Print(a) && Print(b) + "" == Print(b);
    ParsePrint(a, "");
    ParsePrint(b, "");
  }

  // ---------------------------------------------------------------- the texts themselves

  /** The escapes of section 7 of RFC 8259 that are used: the short ones, and "\u00" with two hex digits below U+0020. */
  lemma EscapedTexts(c: char)
    ensures Escape('"') == "\\\"" && Escape('\\') == "\\\\" && Escape('\n') == "\\n" && Escape('\r') == "\\r" && Escape('\t') == "\\t"
    ensures Escape('\U{0C}') == "\\f" && Escape('\U{08}') == "\\b"
    ensures c < ' ' && c !in {'\n', '\r', '\t', '\U{0C}', '\U{08}'} ==>
              Escape(c) == "\\u00" + ["0123456789abcdef"[c as int / 16], "0123456789abcdef"[c as int % 16]]
    ensures c >= ' ' && c != '"' && c != '\\' ==> Escape(c) == [c]
  {
    if c < ' ' {
      HexDigits(c as int / 16);
      HexDigits(c as int % 16);
    }
  }

  lemma HexDigits(n: nat)
    requires n < 16
    ensures Hex(n) == "0123456789abcdef"[n]
  {
    var digits := "0123456789abcdef";
    assert digits[0] == '0' && digits[1] == '1' && digits[2] == '2' && digits[3] == '3' && digits[4] == '4' && digits[5] == '5'
      && digits[6] == '6' && digits[7] == '7' && digits[8] == '8' && digits[9] == '9' && digits[10] == 'a' && digits[11] == 'b'
      && digits[12] == 'c' && digits[13] == 'd' && digits[14] == 'e' && digits[15] == 'f';
  }

  /** A text without characters to escape stands between quotes as it is. */
  lemma {:induction false} PlainText(s: string)
    requires forall i :: 0 <= i < |s| ==> s[i] >= ' ' && s[i] != '"' && s[i] != '\\'
    ensures EscapeAll(s) == s
    ensures Quote(s) == "\"" + s + "\""
  {
    if s != "" {
      PlainText(s[1..]);
      assert s == [s[0]] + s[1..];
    }
  }

  /** Decimal notation: a minus sign for what is below zero, no leading zeros, the last digit last. */
  lemma DecimalTexts(n: nat)
    ensures Decimal(n) == (if n < 10 then "" else Decimal(n / 10)) + ["0123456789"[n % 10]]
    ensures n > 0 ==> Decimal(0 - n) == "-" + Decimal(n)
  {
    var digits := "0123456789";
    assert digits[0] == '0' && digits[1] == '1' && digits[2] == '2' && digits[3] == '3' && digits[4] == '4' && digits[5] == '5'
      && digits[6] == '6' && digits[7] == '7' && digits[8] == '8' && digits[9] == '9';
    assert Digit(n % 10) == digits[n % 10];
  }

  // ---- no blanks anywhere: a comma between values, a colon after a key

  lemma LiteralTexts()
    ensures Print(Null) == "null" && Print(Bool(true)) == "true" && Print(Bool(false)) == "false"
    ensures Print(Arr([])) == "[]" && Print(Obj([])) == "{}"
  {
  }

  lemma ArrayTexts(a: Json, items: seq<Json>)
    ensures Print(Arr([a] + items)) == if items == [] then "[" + Print(a) + "]" else "[" + Print(a) + "," + Print(Arr(items))[1..]
  {
    var all := [a] + items;
    assert all[1..] == items;
    if items != [] {
      var rest := PrintItems(items) + "]";
      assert Print(Arr(items)) == "[" + PrintItems(items) + "]";
      assert Print(Arr(items))[1..] == rest;
      assert PrintItems(all) == Print(a) + "," + PrintItems(items);
    }
  }

  lemma ObjectTexts(f: Field, fields: seq<Field>)
    ensures var first := "{" + Quote(f.key) + ":" + Print(f.value);
            Print(Obj([f] + fields)) == if fields == [] then first + "}" else first + "," + Print(Obj(fields))[1..]
  {
    var all := [f] + fields;
    assert all[1..] == fields;
    assert "{" + FieldText(f) == "{" + Quote(f.key) + ":" + Print(f.value);
    if fields != [] {
      var rest := PrintFields(fields) + "}";
      assert Print(Obj(fields)) == "{" + PrintFields(fields) + "}";
      assert Print(Obj(fields))[1..] == rest;
      assert PrintFields(all) == FieldText(f) + "," + PrintFields(fields);
    }
  }
}
