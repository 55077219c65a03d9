/**
  Names on the wire: the uplink topics (Pc_data/mqtt/MqttMessageHandler.cpp) and the port ids that
  both PC files derive from a slot and read back (also Pc_data/ipc/IpcMessageHandler.cpp).
 */
module Topics {
  import opened TextSearch
  import opened DottedKeys
  import opened Wrappers

  const PREFIX := "gateway/"
  const SUFFIX := "/up"

  /** What stands between the prefix and the suffix, if there is anything. */
  function Body(topic: string): Option<string> {
    if !StartsWith(topic, PREFIX) || |topic| <= |PREFIX| + |SUFFIX| || !EndsWith(topic, SUFFIX) then None
    else Some(topic[|PREFIX|..|topic| - |SUFFIX|])
  }

  function ParsePortUpTopic(topic: string): Option<(string, string)> {
    match Body(topic)
    case None => None
    case Some(body) =>
      var slash := FirstOf('/', body);
      if slash == |body| || slash == 0 || slash + 1 >= |body| || FirstFrom('/', body, slash + 1) < |body| then None
      else Some((body[..slash], body[slash + 1..]))
  }

  /** The gateway id of the topic, if the topic is that gateway's. */
  function GatewayOfUpTopic(topic: string, gatewayId: string): Option<string> {
    match Body(topic)
    case None => None
    case Some(body) => if body != "" && '/' !in body && body == gatewayId then Some(body) else None
  }

  function PortUpTopic(gatewayId: string, portId: string): string {
    PREFIX + (gatewayId + "/" + portId) + SUFFIX
  }

  function GatewayUpTopic(gatewayId: string): string {
    PREFIX + gatewayId + SUFFIX
  }

  predicate IsName(s: string) {
    s != "" && '/' !in s
  }

  lemma BodyIff(topic: string, body: string)
    ensures Body(topic) == Some(body) <==> body != "" && topic == PREFIX + body + SUFFIX
  {
    if body != "" && topic == PREFIX + body + SUFFIX {
      assert topic[..|PREFIX|] == PREFIX && topic[|topic| - |SUFFIX|..] == SUFFIX;
      assert topic[|PREFIX|..|topic| - |SUFFIX|] == body;
    }
    if Body(topic) == Some(body) {
      assert topic == topic[..|PREFIX|] + body + topic[|topic| - |SUFFIX|..];
    }
  }

  lemma NoneFrom(c: char, s: string, i: nat)
    requires i <= |s|
    ensures FirstFrom(c, s, i) == |s| <==> c !in s[i..]
  {
    var r := FirstFrom(c, s, i);
    if r < |s| {
      assert s[i..][r - i] == c;
    } else {
      assert forall j :: 0 <= j < |s| - i ==> s[i..][j] == s[i + j];
    }
  }

  lemma SlashOnce(g: string, p: string)
    requires IsName(g) && IsName(p)
    ensures var body := g + "/" + p;
            FirstOf('/', body) == |g| && FirstFrom('/', body, |g| + 1) == |body| &&
            body[..|g|] == g && body[|g| + 1..] == p
  {
    var body := g + "/" + p;
    assert body[..|g|] == g && body[|g| + 1..] == p;
    FirstIs('/', body, |g|);
    NoneFrom('/', body, |g| + 1);
  }

  /** The parser accepts exactly gateway/G/P/up with non-empty slash-free G and P, and returns them. */
  lemma ParsePortUpTopicIff(topic: string, g: string, p: string)
    ensures ParsePortUpTopic(topic) == Some((g, p)) <==> IsName(g) && IsName(p) && topic == PortUpTopic(g, p)
  {
    if IsName(g) && IsName(p) && topic == PortUpTopic(g, p) {
      BodyIff(topic, g + "/" + p);
      SlashOnce(g, p);
    }
    if ParsePortUpTopic(topic) == Some((g, p)) {
      ParsedParts(topic, g, p);
    }
  }

  lemma ParsedParts(topic: string, g: string, p: string)
    requires ParsePortUpTopic(topic) == Some((g, p))
    ensures IsName(g) && IsName(p) && topic == PortUpTopic(g, p)
  {
    var body := Body(topic).value;
    var slash := FirstOf('/', body);
    BodyIff(topic, body);
    NoneFrom('/', body, slash + 1);
    assert body == g + "/" + p;
  }

  lemma GatewayOfUpTopicIff(topic: string, gatewayId: string, g: string)
    ensures GatewayOfUpTopic(topic, gatewayId) == Some(g) <==> g == gatewayId && IsName(g) && topic == GatewayUpTopic(g)
  {
    BodyIff(topic, g);
  }

  /** No topic is both a port's and a gateway's. */
  lemma TopicsAreDisjoint(topic: string, gatewayId: string)
    ensures ParsePortUpTopic(topic).None? || GatewayOfUpTopic(topic, gatewayId).None?
  {
    if ParsePortUpTopic(topic).Some? {
      var body := Body(topic).value;
      assert body[FirstOf('/', body)] in body;
    }
  }

  // ---------- Port ids ----------

  const INT_MAX := 0x7FFF_FFFF

  function PortIdFromSlot(slot: int): string {
    var n := if slot < 0 then 1 else slot + 1;
    "port_" + Pad(n) + Natural(n)
  }

  function PortNameFromSlot(slot: int): string {
    "RS485-" + Natural(if slot < 0 then 1 else slot + 1)
  }

  predicate IsDigit(c: char) {
    '0' <= c <= '9'
  }

  function Digits(s: string): string {
    if s == "" then "" else Digits(s[..|s| - 1]) + if IsDigit(s[|s| - 1]) then [s[|s| - 1]] else ""
  }

  /** The value of a text of digits. */
  function Number(s: string): nat
    requires forall i :: 0 <= i < |s| ==> IsDigit(s[i])
  {
    if s == "" then 0
    else
      var d := s[|s| - 1];
      assert IsDigit(d);
      10 * Number(s[..|s| - 1]) + (d as int - '0' as int)
  }

  lemma {:induction false} DigitsAreDigits(s: string)
    ensures forall i :: 0 <= i < |Digits(s)| ==> IsDigit(Digits(s)[i])
  {
    if s != "" {
      DigitsAreDigits(s[..|s| - 1]);
    }
  }

  /** None where std::stoi throws: the number does not fit an int. */
  function SlotFromPortId(portId: string, fallback: int): Option<int> {
    if fallback >= 0 then Some(fallback)
    else
      DigitsAreDigits(portId);
      if Digits(portId) == "" then Some(0)
      else if Number(Digits(portId)) > INT_MAX then None
      else Some(if Number(Digits(portId)) > 0 then Number(Digits(portId)) - 1 else 0)
  }

  method ReadSlotFromPortId(portId: string, fallback: int) returns (slot: Option<int>)
    ensures slot == SlotFromPortId(portId, fallback)
  {
    if fallback >= 0 {
      return Some(fallback);
    }
    var digits := "";
    for i := 0 to |portId|
      invariant digits == Digits(portId[..i])
    {
      assert portId[..i + 1][..i] == portId[..i];
      if IsDigit(portId[i]) {
        digits := digits + [portId[i]];
      }
    }
    assert portId[..|portId|] == portId;
    if digits == "" {
      return Some(0);
    }
    DigitsAreDigits(portId);
    var value := Number(digits);
    if value > INT_MAX {
      return None;
    }
    slot := Some(if value > 0 then value - 1 else 0);
  }

  lemma {:induction false} DigitsAppend(a: string, b: string)
    ensures Digits(a + b) == Digits(a) + Digits(b)
  {
    if b == "" {
      assert a + b == a;
    } else {
      var n := |b| - 1;
      assert (a + b)[..|a + b| - 1] == a + b[..n];
      DigitsAppend(a, b[..n]);
    }
  }

  lemma {:induction false} DigitsOfDigits(s: string)
    requires forall i :: 0 <= i < |s| ==> IsDigit(s[i])
    ensures Digits(s) == s
  {
    if s != "" {
      DigitsOfDigits(s[..|s| - 1]);
    }
  }

  lemma NaturalIsDigits(n: nat)
    ensures forall i :: 0 <= i < |Natural(n)| ==> IsDigit(Natural(n)[i])
  {
    assert forall i :: 0 <= i < 10 ==> IsDigit(DIGITS[i]);
  }

  lemma {:induction false} NumberOfNatural(n: nat)
    ensures forall i :: 0 <= i < |Natural(n)| ==> IsDigit(Natural(n)[i])
    ensures Number(Natural(n)) == n
  {
    NaturalIsDigits(n);
    var s := Natural(n);
    DigitValue(n % 10);
    if n < 10 {
      assert s[..0] == "";
    } else {
      NumberOfNatural(n / 10);
      assert s[..|s| - 1] == Natural(n / 10);
    }
  }

  lemma DigitValue(d: nat)
    requires d < 10
    ensures DIGITS[d] as int - '0' as int == d
  {
  }

  lemma {:induction false} NumberZeros(s: string)
    requires forall i :: 0 <= i < |s| ==> IsDigit(s[i])
    ensures Number("0" + s) == Number(s)
  {
    var t := "0" + s;
    if s == "" {
      assert t[..0] == "";
    } else {
      assert t[..|t| - 1] == "0" + s[..|s| - 1];
      NumberZeros(s[..|s| - 1]);
    }
  }

  function Pad(n: nat): string {
    if n < 10 then "00" else if n < 100 then "0" else ""
  }

  lemma DigitsOfPortId(n: nat)
    ensures Digits("port_" + Pad(n) + Natural(n)) == Pad(n) + Natural(n)
  {
    NaturalIsDigits(n);
    NoDigits("port_");
    DigitsAppend("port_" + Pad(n), Natural(n));
    DigitsAppend("port_", Pad(n));
    DigitsOfDigits(Pad(n));
    DigitsOfDigits(Natural(n));
    assert "" + Pad(n) == Pad(n);
  }

  lemma NumberOfPadded(n: nat)
    ensures var s := Pad(n) + Natural(n);
            (forall i :: 0 <= i < |s| ==> IsDigit(s[i])) && Number(s) == n && s != ""
  {
    var s := Natural(n);
    NumberOfNatural(n);
    NumberZeros(s);
    if n < 10 {
      NumberZeros("0" + s);
      assert Pad(n) + s == "0" + ("0" + s);
    } else if n >= 100 {
      assert Pad(n) + s == s;
    }
  }

  /** A port id read back gives the slot it was made from. */
  lemma SlotRoundTrip(slot: int)
    requires 0 <= slot < INT_MAX
    ensures SlotFromPortId(PortIdFromSlot(slot), -1) == Some(slot)
  {
    DigitsOfPortId(slot + 1);
    NumberOfPadded(slot + 1);
  }

  lemma {:induction false} LeadingDigitsCount(a: string, s: string)
    requires (forall i :: 0 <= i < |a| ==> IsDigit(a[i])) && (forall i :: 0 <= i < |s| ==> IsDigit(s[i]))
    requires Number(a) > 0
    ensures (forall i :: 0 <= i < |a + s| ==> IsDigit((a + s)[i])) && Number(a + s) > Number(s)
  {
    if s == "" {
      assert a + s == a;
    } else {
      LeadingDigitsCount(a, s[..|s| - 1]);
      assert (a + s)[..|a + s| - 1] == a + s[..|s| - 1];
    }
  }

  /** A port name is no port id: its model number is read as part of the slot. */
  lemma PortNameIsNoPortId(slot: int)
    requires slot >= 0
    ensures SlotFromPortId(PortNameFromSlot(slot), -1) != Some(slot)
  {
    var s := Natural(slot + 1);
    NumberOfNatural(slot + 1);
    DigitsAppend("RS485-", s);
    DigitsOfDigits(s);
    NamePrefixDigits();
    LeadingDigitsCount("485", s);
    assert Digits(PortNameFromSlot(slot)) == "485" + s;
  }

  lemma NamePrefixDigits()
    ensures Digits("RS485-") == "485" && Number("485") > 0
  {
    assert "RS485-" == "RS" + "485" + "-";
    DigitsAppend("RS" + "485", "-");
    DigitsAppend("RS", "485");
    NoDigits("RS");
    NoDigits("-");
    DigitsOfDigits("485");
    assert "485"[2] == '5';
  }

  lemma {:induction false} NoDigits(s: string)
    requires forall i :: 0 <= i < |s| ==> !IsDigit(s[i])
    ensures Digits(s) == ""
  {
    if s != "" {
      NoDigits(s[..|s| - 1]);
    }
  }
}
