/**
  extractJsonStringValue on objects of several fields (Pc_data/common/JsonUtils.cpp): it looks for the
  quoted key anywhere in the text, so a value can be taken for the key.
 */
module JsonScan {
  import opened TextSearch
  import opened JsonText
  import opened Wrappers

  datatype Field = Field(key: string, value: string)

  function FieldText(f: Field): string {
    Quoted(f.key) + ":" + Quoted(Escape(f.value))
  }

  function Fields(fs: seq<Field>): string
    requires fs != []
    decreases |fs|, 0
  {
    FieldText(fs[0]) + Tail(fs[1..])
  }

  function Tail(fs: seq<Field>): string
    decreases |fs|, 1
  {
    if fs == [] then "}" else "," + Fields(fs)
  }

  function Object(fs: seq<Field>): string {
    if fs == [] then "{}" else "{" + Fields(fs)
  }

  /** Text that is written as it is and that no punctuation of an object reads as. */
  predicate PlainKey(k: string) {
    && '"' !in k && '\\' !in k && !HasLineControl(k)
    && ':' !in k && k != ","
  }

  /** Written with its quotes, the value ends like the quoted key: it is the key, or ends with a quote
      and the key. */
  predicate LooksLike(v: string, k: string) {
    EndsWith("\"" + v, "\"" + k)
  }

  /** What the scan answers: it goes for the first field whose key is k, or the one after the first
      whose value looks like it. */
  function Answer(fs: seq<Field>, k: string): string {
    if fs == [] then ""
    else if fs[0].key == k then fs[0].value
    else if LooksLike(fs[0].value, k) then (if |fs| == 1 then "" else fs[1].value)
    else Answer(fs[1..], k)
  }

  /** What it is asked for. */
  function Value(fs: seq<Field>, k: string): string {
    if fs == [] then "" else if fs[0].key == k then fs[0].value else Value(fs[1..], k)
  }

  // ---------- Searching on the rest of the text ----------

  /** What follows the first occurrence of the pattern. */
  function AfterText(pattern: string, t: string): Option<string>
    requires pattern != ""
  {
    if t == "" then None else if StartsAt(pattern, t, 0) then Some(t[|pattern|..]) else AfterText(pattern, t[1..])
  }

  function AfterKey(k: string, t: string): Option<string> {
    AfterText(Quoted(k), t)
  }

  function AfterChar(c: char, t: string): Option<string> {
    if t == "" then None else if t[0] == c then Some(t[1..]) else AfterChar(c, t[1..])
  }

  function AfterQuote(u: Option<string>): Option<string> {
    if u.Some? then AfterChar('"', u.value) else None
  }

  function Scanned(w: Option<string>): string {
    if w.Some? then Scan(w.value, false) else ""
  }

  /** The scanned value, given what follows the key. */
  function ValueAfter(t: string): string {
    Scanned(AfterQuote(AfterChar(':', t)))
  }

  function FoundValue(t: Option<string>): string {
    if t.Some? then ValueAfter(t.value) else ""
  }

  lemma {:induction false} TextFound(pattern: string, s: string)
    requires pattern != ""
    ensures var pos := Find(pattern, s);
            AfterText(pattern, s) == if pos == |s| then None else Some(s[pos + |pattern|..])
  {
    if s != "" && !StartsAt(pattern, s, 0) {
      TextFound(pattern, s[1..]);
    }
  }

  lemma {:induction false} FindIsAfterChar(c: char, s: string, i: nat)
    requires i <= |s|
    ensures var r := FirstFrom(c, s, i);
            AfterChar(c, s[i..]) == if r == |s| then None else Some(s[r + 1..])
    decreases |s| - i
  {
    if i < |s| {
      FindIsAfterChar(c, s, i + 1);
      assert s[i..][1..] == s[i + 1..];
    }
  }

  lemma ValueAfterAt(s: string, i: nat)
    requires i <= |s|
    ensures ValueAfter(s[i..]) == Scan(s[AfterColonQuote(s, i)..], false)
  {
    var colon := FirstFrom(':', s, i);
    assert s[|s|..] == "";
    FindIsAfterChar(':', s, i);
    if colon < |s| {
      FindIsAfterChar('"', s, colon + 1);
    }
  }

  lemma ScanFromKey(s: string, k: string, i: nat)
    requires i <= |s| && ValueStart(s, k) == AfterColonQuote(s, i)
    ensures Extract(s, k) == ValueAfter(s[i..])
  {
    ValueAfterAt(s, i);
  }

  lemma ExtractIsValueAfter(s: string, k: string)
    ensures Extract(s, k) == FoundValue(AfterKey(k, s))
  {
    var pattern := Quoted(k);
    var pos := Find(pattern, s);
    TextFound(pattern, s);
    if pos < |s| {
      var i := pos + |pattern|;
      assert AfterKey(k, s) == Some(s[i..]);
      ScanFromKey(s, k, i);
    } else {
      assert AfterKey(k, s) == None;
      NothingToScan(s, k);
    }
  }

  // ---------- From quote to quote ----------

  lemma {:induction false} SkipUnquoted(k: string, a: string, t: string)
    requires '"' !in a
    ensures AfterKey(k, a + t) == AfterKey(k, t)
  {
    if a == "" {
      assert a + t == t;
    } else {
      assert (a + t)[0] == a[0] && (a + t)[1..] == a[1..] + t;
      SkipUnquoted(k, a[1..], t);
    }
  }

  /** Between two quotes the key is found or is not there; the second quote may begin the next try. */
  lemma BetweenQuotes(k: string, a: string, t: string)
    requires '"' !in a && '"' !in k
    ensures AfterKey(k, Quoted(a) + t) == if a == k then Some(t) else AfterKey(k, "\"" + t)
  {
    var s := Quoted(a) + t;
    if a == k {
      assert s[0..|Quoted(k)|] == Quoted(k) && s[|Quoted(k)|..] == t;
    } else {
      if StartsAt(Quoted(k), s, 0) {
        SameUpToQuote(k, a, t);
      }
      assert s[1..] == a + ("\"" + t);
      SkipUnquoted(k, a, "\"" + t);
    }
  }

  lemma SameUpToQuote(k: string, a: string, t: string)
    requires '"' !in a && '"' !in k && StartsAt(Quoted(k), Quoted(a) + t, 0)
    ensures a == k
  {
    var s, n := Quoted(a) + t, |k|;
    var u := s[1..];
    assert u == a + "\"" + t && u[..|a|] == a && u[|a|] == '"';
    assert k + "\"" == Quoted(k)[1..] == s[0..n + 2][1..] == u[..n + 1];
    assert u[..n] == (k + "\"")[..n] == k && u[n] == (k + "\"")[n] == '"';
    FirstIs('"', u, |a|);
    FirstIs('"', u, n);
  }

  // ---------- Escaped values ----------

  lemma {:induction false} EscapeAppend(a: string, b: string)
    ensures Escape(a + b) == Escape(a) + Escape(b)
  {
    if a == "" {
      assert a + b == b;
    } else {
      assert (a + b)[0] == a[0] && (a + b)[1..] == a[1..] + b;
      EscapeAppend(a[1..], b);
      var e := EscapeChar(a[0]);
      assert e + (Escape(a[1..]) + Escape(b)) == (e + Escape(a[1..])) + Escape(b);
    }
  }

  lemma {:induction false} EscapeUnquoted(v: string)
    requires '"' !in v
    ensures '"' !in Escape(v)
    ensures '\\' !in v && !HasLineControl(v) ==> Escape(v) == v
    ensures '\\' !in Escape(v) ==> '\\' !in v && !HasLineControl(v)
  {
    if v != "" {
      EscapeUnquoted(v[1..]);
      assert v == [v[0]] + v[1..];
      var e := EscapeChar(v[0]);
      assert Escape(v) == e + Escape(v[1..]);
      assert |e| == 2 ==> e[0] in Escape(v);
    }
  }

  lemma EscapedIsKey(v: string, k: string)
    requires PlainKey(k) && '"' !in v
    ensures Escape(v) == k <==> v == k
    ensures '"' !in Escape(v)
  {
    EscapeUnquoted(v);
  }

  /** A quoted value holds the quoted key exactly when it looks like it. */
  lemma {:induction false} ThroughValue(k: string, v: string, t: string)
    requires PlainKey(k)
    ensures AfterKey(k, Quoted(Escape(v)) + t) == if LooksLike(v, k) then Some(t) else AfterKey(k, "\"" + t)
    decreases |v|
  {
    var i := FirstOf('"', v);
    if i == |v| {
      assert v[..i] == v;
      EscapedIsKey(v, k);
      UnquotedLooksLike(v, k);
      BetweenQuotes(k, Escape(v), t);
    } else {
      ThroughEscapedQuote(k, v, i, t);
      ThroughValue(k, v[i + 1..], t);
      LooksLikeTail(v, i, k);
    }
  }

  lemma ThroughEscapedQuote(k: string, v: string, i: nat, t: string)
    requires PlainKey(k) && i < |v| && v[i] == '"' && '"' !in v[..i]
    ensures AfterKey(k, Quoted(Escape(v)) + t) == AfterKey(k, Quoted(Escape(v[i + 1..])) + t)
  {
    var a, b := Escape(v[..i]), Escape(v[i + 1..]);
    EscapeUnquoted(v[..i]);
    SplitValue(v, i);
    QuoteParts(a, b, t);
    assert (a + "\\")[|a|] == '\\';
    BetweenQuotes(k, a + "\\", b + "\"" + t);
  }

  lemma QuoteParts(a: string, b: string, t: string)
    ensures Quoted(a + "\\" + "\"" + b) + t == Quoted(a + "\\") + (b + "\"" + t)
    ensures "\"" + (b + "\"" + t) == Quoted(b) + t
  {
  }

  lemma SplitValue(v: string, i: nat)
    requires i < |v| && v[i] == '"'
    ensures Escape(v) == Escape(v[..i]) + "\\" + "\"" + Escape(v[i + 1..])
  {
    assert v == v[..i] + v[i..];
    EscapeAppend(v[..i], v[i..]);
    assert v[i..][1..] == v[i + 1..];
    assert Escape(v[i..]) == "\\\"" + Escape(v[i + 1..]);
    assert "\\\"" == "\\" + "\"";
  }

  lemma LooksLikeTail(v: string, i: nat, k: string)
    requires i < |v| && v[i] == '"' && '"' !in k
    ensures LooksLike(v, k) <==> LooksLike(v[i + 1..], k)
  {
    var s, x := "\"" + v, "\"" + k;
    assert s[i + 1..] == "\"" + v[i + 1..];
    SuffixOfSuffix(s, i + 1, x);
    if EndsWith(s, x) {
      var j := |s| - |x|;
      assert forall p :: j < p < |s| ==> s[p] == s[j..][p - j] == k[p - j - 1] && k[p - j - 1] in k;
      assert s[i + 1] == '"';
    }
  }

  lemma SuffixOfSuffix(s: string, m: nat, x: string)
    requires m <= |s|
    ensures EndsWith(s[m..], x) <==> EndsWith(s, x) && |x| <= |s| - m
  {
    if |x| <= |s| - m {
      assert s[m..][|s| - m - |x|..] == s[|s| - |x|..];
    }
  }

  lemma UnquotedLooksLike(v: string, k: string)
    requires '"' !in v
    ensures LooksLike(v, k) <==> v == k
  {
    var s, x := "\"" + v, "\"" + k;
    if EndsWith(s, x) {
      var j := |s| - |x|;
      assert s[j] == s[j..][0] == '"';
      assert s[0..] == s && v == s[1..] && k == x[1..];
    } else {
      assert s[0..] == s;
    }
  }

  // ---------- The object ----------

  lemma FieldParts(f: Field, t: string)
    ensures FieldText(f) + t == Quoted(f.key) + (":" + (Quoted(Escape(f.value)) + t))
    ensures "\"" + (":" + (Quoted(Escape(f.value)) + t)) == Quoted(":") + (Escape(f.value) + "\"" + t)
    ensures "\"" + (Escape(f.value) + "\"" + t) == Quoted(Escape(f.value)) + t
  {
  }

  /** The value right after a key's closing quote. */
  lemma ValueFollows(v: string, t: string)
    ensures ValueAfter(":" + (Quoted(Escape(v)) + t)) == Lossy(v)
  {
    var u, w := Quoted(Escape(v)) + t, Escape(v) + ("\"" + t);
    assert AfterChar(':', ":" + u) == Some(u) by {
      assert (":" + u)[1..] == u;
    }
    assert AfterChar('"', u) == Some(w) by {
      assert u[0] == '"' && u[1..] == w;
    }
    ScanEscaped(v, t);
  }

  /** After a value that was taken for the key: the next field's value. */
  lemma NextFollows(fs: seq<Field>)
    requires fs != [] ==> ':' !in fs[0].key
    ensures ValueAfter(Tail(fs)) == if fs == [] then "" else Lossy(fs[0].value)
  {
    if fs == [] {
      assert "}"[1..] == "";
      assert AfterChar(':', "}") == AfterChar(':', "") == None;
    } else {
      var f, rest := fs[0], Tail(fs[1..]);
      FieldParts(f, rest);
      var u := ":" + (Quoted(Escape(f.value)) + rest);
      assert Tail(fs) == "," + Quoted(f.key) + u;
      assert ':' !in "," + Quoted(f.key);
      SkipToColon("," + Quoted(f.key), u);
      ValueFollows(f.value, rest);
    }
  }

  lemma {:induction false} SkipToColon(a: string, u: string)
    requires ':' !in a && u != "" && u[0] == ':'
    ensures AfterChar(':', a + u) == Some(u[1..]) && AfterChar(':', u) == Some(u[1..])
  {
    if a == "" {
      assert a + u == u;
    } else {
      assert (a + u)[0] == a[0] && (a + u)[1..] == a[1..] + u;
      SkipToColon(a[1..], u);
    }
  }

  predicate PlainKeys(fs: seq<Field>) {
    forall f :: f in fs ==> PlainKey(f.key)
  }

  /** One field: its key is the one, or its value looks like it, or the search goes on behind it. */
  lemma ThroughField(k: string, f: Field, t: string)
    requires PlainKey(k) && '"' !in f.key
    ensures AfterKey(k, FieldText(f) + t)
         == if f.key == k then Some(":" + (Quoted(Escape(f.value)) + t))
            else if LooksLike(f.value, k) then Some(t)
            else AfterKey(k, "\"" + t)
  {
    FieldParts(f, t);
    BetweenQuotes(k, f.key, ":" + (Quoted(Escape(f.value)) + t));
    if f.key != k {
      assert k != ":";
      BetweenQuotes(k, ":", Escape(f.value) + "\"" + t);
      ThroughValue(k, f.value, t);
    }
  }

  lemma {:induction false} NoRoom(pattern: string, t: string)
    requires |t| < |pattern|
    ensures AfterText(pattern, t) == None
  {
    if t != "" {
      NoRoom(pattern, t[1..]);
    }
  }

  lemma EndsWithoutKey(k: string)
    ensures AfterKey(k, "}") == None && AfterKey(k, "\"" + "}") == None
  {
    var p, t := Quoted(k), "\"" + "}";
    NoRoom(p, "}");
    if k == "" {
      assert p[1] == '"' && t[1] == '}' && t[0..2] == t && !StartsAt(p, t, 0);
      assert t[1..] == "}";
    } else {
      NoRoom(p, t);
    }
  }

  /** The closing quote of a field does not begin the key. */
  lemma BetweenFields(k: string, fs: seq<Field>)
    requires PlainKey(k)
    ensures AfterKey(k, "\"" + Tail(fs)) == if fs == [] then None else AfterKey(k, Fields(fs))
  {
    if fs == [] {
      EndsWithoutKey(k);
    } else {
      var rest := Fields(fs);
      NextQuote(rest);
      BetweenQuotes(k, ",", rest[1..]);
    }
  }

  lemma NextQuote(rest: string)
    requires rest != "" && rest[0] == '"'
    ensures "\"" + ("," + rest) == Quoted(",") + rest[1..] && "\"" + rest[1..] == rest
  {
  }

  lemma {:induction false} FieldsAnswer(fs: seq<Field>, k: string)
    requires fs != [] && PlainKeys(fs) && PlainKey(k)
    ensures FoundValue(AfterKey(k, Fields(fs))) == Lossy(Answer(fs, k))
  {
    var f, rest := fs[0], fs[1..];
    assert f in fs && forall g :: g in rest ==> g in fs;
    ThroughField(k, f, Tail(rest));
    if f.key == k {
      ValueFollows(f.value, Tail(rest));
    } else if LooksLike(f.value, k) {
      NextFollows(rest);
    } else {
      BetweenFields(k, rest);
      if rest != [] {
        FieldsAnswer(rest, k);
      }
    }
  }

  /** On a flat object of string fields the scan answers what Answer says. */
  lemma {:induction false} ExtractObject(fs: seq<Field>, k: string)
    requires PlainKeys(fs) && PlainKey(k)
    ensures Extract(Object(fs), k) == Lossy(Answer(fs, k))
  {
    var s := Object(fs);
    ExtractIsValueAfter(s, k);
    assert s[0] == '{' && Quoted(k)[0] == '"' && !StartsAt(Quoted(k), s, 0);
    if fs == [] {
      assert s[1..] == "}";
      EndsWithoutKey(k);
    } else {
      assert s[1..] == Fields(fs);
      FieldsAnswer(fs, k);
    }
  }

  /** No value before the wanted field looks like its key. */
  predicate NoDecoy(fs: seq<Field>, k: string) {
    fs == [] || fs[0].key == k || (!LooksLike(fs[0].value, k) && NoDecoy(fs[1..], k))
  }

  /** So it finds the field that was asked for when no earlier value looks like the key. */
  lemma {:induction false} ExtractFindsField(fs: seq<Field>, k: string)
    requires PlainKeys(fs) && PlainKey(k) && NoDecoy(fs, k)
    ensures Extract(Object(fs), k) == Lossy(Value(fs, k))
  {
    ExtractObject(fs, k);
    AnswerIsValue(fs, k);
  }

  lemma {:induction false} AnswerIsValue(fs: seq<Field>, k: string)
    requires NoDecoy(fs, k)
    ensures Answer(fs, k) == Value(fs, k)
  {
    if fs != [] && fs[0].key != k {
      AnswerIsValue(fs[1..], k);
    }
  }

  /** And it goes wrong when one does: the field behind the decoy answers instead. */
  lemma {:induction false} DecoyAnswers(fs: seq<Field>, k: string)
    requires PlainKeys(fs) && PlainKey(k) && |fs| >= 2 && fs[0].key != k && fs[1].key != k && LooksLike(fs[0].value, k)
    ensures Extract(Object(fs), k) == Lossy(fs[1].value)
    ensures Value(fs, k) == Value(fs[2..], k)
  {
    ExtractObject(fs, k);
    assert fs[1..][1..] == fs[2..];
  }
}
