/**
  JSON text as the PC side writes and reads it (Pc_data/common/JsonUtils.cpp): jsonEscape, and
  extractJsonStringValue, which scans for a key without parsing.
 */
module JsonText {
  import opened TextSearch
  import opened Wrappers

  // ---------- Writing ----------

  function EscapeChar(c: char): string {
    match c
    case '\"' => "\\\""
    case '\\' => "\\\\"
    case '\n' => "\\n"
    case '\r' => "\\r"
    case '\t' => "\\t"
    case _ => [c]
  }

  function Escape(s: string): string {
    if s == "" then "" else EscapeChar(s[0]) + Escape(s[1..])
  }

  method AppendEscaped(text: string, c: char) returns (output: string)
    ensures output == text + EscapeChar(c)
  {
    match c {
      case '\"' => output := text + "\\\"";
      case '\\' => output := text + "\\\\";
      case '\n' => output := text + "\\n";
      case '\r' => output := text + "\\r";
      case '\t' => output := text + "\\t";
      case _ => output := text + [c];
    }
  }

  method JsonEscape(input: string) returns (output: string)
    ensures output == Escape(input)
  {
    output := "";
    for i := 0 to |input|
      invariant output == Escape(input[..i])
    {
      EscapeSnoc(input[..i], input[i]);
      assert input[..i] + [input[i]] == input[..i + 1];
      output := AppendEscaped(output, input[i]);
    }
    assert input[..|input|] == input;
  }

  lemma {:induction false} EscapeSnoc(s: string, c: char)
    ensures Escape(s + [c]) == Escape(s) + EscapeChar(c)
  {
    if s == "" {
      assert s + [c] == [c] && [c][1..] == "";
    } else {
      assert (s + [c])[1..] == s[1..] + [c];
      EscapeSnoc(s[1..], c);
      assert EscapeChar(s[0]) + (Escape(s[1..]) + EscapeChar(c)) == EscapeChar(s[0]) + Escape(s[1..]) + EscapeChar(c);
    }
  }

  // ---------- Reading ----------

  /** The text up to an unescaped quote, a backslash standing for whatever follows it. */
  function Scan(t: string, escaped: bool): string {
    if t == "" then ""
    else if escaped then [t[0]] + Scan(t[1..], false)
    else if t[0] == '\\' then Scan(t[1..], true)
    else if t[0] == '"' then ""
    else [t[0]] + Scan(t[1..], false)
  }

  function Quoted(s: string): string {
    "\"" + s + "\""
  }

  /** After the first quote after the first colon from the index on. */
  function AfterColonQuote(json: string, i: nat): (start: nat)
    requires i <= |json|
    ensures start <= |json|
  {
    var colon := FirstFrom(':', json, i);
    if colon == |json| then |json|
    else
      var quote := FirstFrom('"', json, colon + 1);
      if quote == |json| then |json| else quote + 1
  }

  /** Where the value scan starts, searching from behind the quoted key. */
  function ValueStart(json: string, key: string): (start: nat)
    ensures start <= |json|
  {
    var pos := Find(Quoted(key), json);
    if pos == |json| then |json| else AfterColonQuote(json, pos + |Quoted(key)|)
  }

  function Extract(json: string, key: string): string {
    Scan(json[ValueStart(json, key)..], false)
  }

  method ExtractJsonStringValue(json: string, key: string) returns (result: string)
    ensures result == Extract(json, key)
  {
    var pattern := "\"" + key + "\"";
    var pos := Find(pattern, json);
    if pos == |json| {
      NothingToScan(json, key);
      return "";
    }
    pos := FirstFrom(':', json, pos + |pattern|);
    if pos == |json| {
      NothingToScan(json, key);
      return "";
    }
    pos := FirstFrom('"', json, pos + 1);
    if pos == |json| {
      NothingToScan(json, key);
      return "";
    }
    assert pos + 1 == ValueStart(json, key);
    result := ScanFrom(json, pos + 1);
  }

  lemma NothingToScan(json: string, key: string)
    ensures ValueStart(json, key) == |json| ==> Extract(json, key) == ""
  {
    assert json[|json|..] == "";
  }

  method ScanFrom(json: string, start: nat) returns (result: string)
    requires start <= |json|
    ensures result == Scan(json[start..], false)
  {
    result := "";
    var escaped := false;
    var i := start;
    while i < |json|
      invariant start <= i <= |json|
      invariant result + Scan(json[i..], escaped) == Scan(json[start..], false)
    {
      var ch := json[i];
      assert json[i..][1..] == json[i + 1..];
      if escaped {
        assert result + ([ch] + Scan(json[i + 1..], false)) == (result + [ch]) + Scan(json[i + 1..], false);
        result := result + [ch];
        escaped := false;
        i := i + 1;
        continue;
      }
      if ch == '\\' {
        escaped := true;
        i := i + 1;
        continue;
      }
      if ch == '"' {
        assert result + "" == result;
        return;
      }
      assert result + ([ch] + Scan(json[i + 1..], false)) == (result + [ch]) + Scan(json[i + 1..], false);
      result := result + [ch];
      i := i + 1;
    }
  }

  // ---------- What comes back ----------

  /** LF, CR and TAB come back as the letters of their escapes. */
  function Lossy(s: string): string {
    if s == "" then ""
    else [match s[0] case '\n' => 'n' case '\r' => 'r' case '\t' => 't' case c => c] + Lossy(s[1..])
  }

  predicate HasLineControl(s: string) {
    '\n' in s || '\r' in s || '\t' in s
  }

  /** The scan reads an escaped text to its end and stops at the closing quote, whatever follows. */
  lemma {:induction false} ScanEscaped(v: string, rest: string)
    ensures Scan(Escape(v) + ("\"" + rest), false) == Lossy(v)
  {
    if v != "" {
      var tail := Escape(v[1..]) + ("\"" + rest);
      var e := EscapeChar(v[0]);
      assert Escape(v) + ("\"" + rest) == e + tail;
      ScanEscaped(v[1..], rest);
      ScanOne(v[0], tail);
    }
  }

  lemma ScanOne(c: char, tail: string)
    ensures Scan(EscapeChar(c) + tail, false) == Lossy([c]) + Scan(tail, false)
  {
    var t := EscapeChar(c) + tail;
    assert t[0] == EscapeChar(c)[0] && [c][1..] == "";
    if |EscapeChar(c)| == 2 {
      assert t[1..][0] == EscapeChar(c)[1] && t[1..][1..] == tail;
    } else {
      assert t[1..] == tail;
    }
  }

  lemma {:induction false} LossyIff(v: string)
    ensures |Lossy(v)| == |v| && (Lossy(v) == v <==> !HasLineControl(v))
  {
    if v != "" {
      LossyIff(v[1..]);
      assert v == [v[0]] + v[1..];
      assert Lossy(v)[0] == v[0] <==> !HasLineControl([v[0]]);
      assert Lossy(v)[1..] == Lossy(v[1..]);
    }
  }

  function Document(key: string, value: string): string {
    "{" + Quoted(key) + ":" + Quoted(Escape(value)) + "}"
  }

  lemma DocumentValueStart(key: string, value: string)
    ensures ValueStart(Document(key, value), key) == |Quoted(key)| + 3
    ensures Document(key, value)[|Quoted(key)| + 3..] == Escape(value) + ("\"" + "}")
  {
    var json, pattern := Document(key, value), Quoted(key);
    var after := 1 + |pattern|;
    DocumentParts(pattern, Escape(value));
    StartsAtRest(pattern, json, 0);
    assert Find(pattern, json) == 1 + Find(pattern, json[1..]) == 1;
    assert FirstFrom(':', json, after) == after && FirstFrom('"', json, after + 1) == after + 1;
  }

  lemma DocumentParts(pattern: string, text: string)
    requires pattern != "" && pattern[0] == '"'
    ensures var json := "{" + pattern + ":" + Quoted(text) + "}";
            && !StartsAt(pattern, json, 0) && StartsAt(pattern, json, 1)
            && json[1 + |pattern|] == ':' && json[2 + |pattern|] == '"'
            && json[3 + |pattern|..] == text + ("\"" + "}")
  {
    var json := "{" + pattern + ":" + Quoted(text) + "}";
    assert json[0] == '{';
  }

  /** Reading back a one-field object returns the value if and only if it holds no LF, CR or TAB;
      those come back as letters. */
  lemma ExtractDocument(key: string, value: string)
    ensures Extract(Document(key, value), key) == Lossy(value)
    ensures Extract(Document(key, value), key) == value <==> !HasLineControl(value)
  {
    DocumentValueStart(key, value);
    ScanEscaped(value, "}");
    LossyIff(value);
  }

  // ---------- A standard reader ----------

  function Unescape(c: char): Option<char> {
    match c
    case '"' => Some('"')
    case '\\' => Some('\\')
    case '/' => Some('/')
    case 'b' => Some(8 as char)
    case 'f' => Some(12 as char)
    case 'n' => Some('\n')
    case 'r' => Some('\r')
    case 't' => Some('\t')
    case _ => None
  }

  function HexDigit(c: char): Option<nat> {
    if '0' <= c <= '9' then Some(c as int - '0' as int)
    else if 'a' <= c <= 'f' then Some(c as int - 'a' as int + 10)
    else if 'A' <= c <= 'F' then Some(c as int - 'A' as int + 10)
    else None
  }

  /** The code of four hexadecimal digits, unless it is half of a surrogate pair. */
  function HexCode(t: string): Option<char>
    requires |t| >= 4
  {
    match (HexDigit(t[0]), HexDigit(t[1]), HexDigit(t[2]), HexDigit(t[3]))
    case (Some(a), Some(b), Some(c), Some(d)) =>
      var code := 4096 * a + 256 * b + 16 * c + d;
      if code < 0xD800 then Some(code as char)
      else if 0xE000 <= code <= 0xFFFF then Some(code as char) else None
    case _ => None
  }

  function Cons(c: Option<char>, t: Option<string>): Option<string> {
    if c.Some? && t.Some? then Some([c.value] + t.value) else None
  }

  /** A string body up to its closing quote, by section 7 of RFC 8259; control characters may only
      appear escaped. */
  function Decode(t: string): Option<string>
    decreases |t|
  {
    if t == "" then None
    else if t[0] == '"' then Some("")
    else if t[0] == '\\' then
      if |t| >= 6 && t[1] == 'u' then Cons(HexCode(t[2..6]), Decode(t[6..]))
      else if |t| >= 2 then Cons(Unescape(t[1]), Decode(t[2..]))
      else None
    else Cons(if t[0] < ' ' then None else Some(t[0]), Decode(t[1..]))
  }

  /** Control characters that jsonEscape leaves as they are. */
  predicate RawControl(c: char) {
    c < ' ' && c != '\n' && c != '\r' && c != '\t'
  }

  lemma DecodeOne(c: char, tail: string)
    ensures Decode(EscapeChar(c) + tail) == Cons(if RawControl(c) then None else Some(c), Decode(tail))
  {
    var t := EscapeChar(c) + tail;
    assert t[0] == EscapeChar(c)[0];
    if |EscapeChar(c)| == 2 {
      assert t[1] == EscapeChar(c)[1] && t[2..] == tail;
    } else {
      assert t[1..] == tail;
    }
  }

  /** A standard reader gets every escaped text back exactly, LF, CR and TAB included, if and only if
      the text holds no other control character. */
  lemma {:induction false} DecodeEscaped(v: string, rest: string)
    ensures Decode(Escape(v) + ("\"" + rest)) == if exists c :: c in v && RawControl(c) then None else Some(v)
  {
    if v != "" {
      var tail := Escape(v[1..]) + ("\"" + rest);
      assert Escape(v) + ("\"" + rest) == EscapeChar(v[0]) + tail;
      DecodeOne(v[0], tail);
      DecodeEscaped(v[1..], rest);
      assert v == [v[0]] + v[1..];
      assert forall c :: c in v <==> c == v[0] || c in v[1..];
    }
  }
}
