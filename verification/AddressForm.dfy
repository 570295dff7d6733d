/** Address parameters of an SCL file: a lenient reader, a strict check of the
    schema form, and the writer of that form. */
module AddressForm {
  import opened Wrappers
  import opened Bytes
  import opened Text
  import opened Hex

  /** The parameter types, by the form they share. */
  datatype Kind =
    | Ipv4           // IP, IP-SUBNET, IP-GATEWAY, IP-IGMPv3Src
    | Mac            // MAC-Address
    | AppId          // APPID
    | VlanId         // VLAN-ID
    | VlanPriority   // VLAN-PRIORITY
    | Port           // MMS-Port, SNTP-Port, IP-UDP-PORT, IP-TCP-PORT
    | PhasorPort     // C37-118-IP-Port
    | ClassOfTraffic // IPv6ClassOfTraffic
    | Nsap           // OSI-NSAP
    | Tsel           // OSI-TSEL
    | Selector       // OSI-SSEL, OSI-PSEL

  datatype Value = Number(n: nat) | Octets(o: seq<Byte>)

  // ----- White space -----

  predicate IsXmlSpace(c: char) {
    c == ' ' || c == '\t' || c == '\r' || c == '\n'
  }

  function TrimStart(s: string): string {
    if |s| > 0 && IsXmlSpace(s[0]) then TrimStart(s[1..]) else s
  }

  function TrimEnd(s: string): string {
    if |s| > 0 && IsXmlSpace(s[|s| - 1]) then TrimEnd(s[..|s| - 1]) else s
  }

  function Trim(s: string): string {
    TrimEnd(TrimStart(s))
  }

  /** The White_Space property of Unicode. */
  predicate IsWhitespace(c: char) {
    var u := c as int;
    || 0x09 <= u <= 0x0D || u == 0x20 || u == 0x85 || u == 0xA0 || u == 0x1680 || 0x2000 <= u <= 0x200A
    || u == 0x2028 || u == 0x2029 || u == 0x202F || u == 0x205F || u == 0x3000
  }

  predicate HasWhitespace(s: string) {
    exists i :: 0 <= i < |s| && IsWhitespace(s[i])
  }

  /** The runs of characters between white space. */
  function Words(s: string): (words: seq<string>)
    ensures |s| > 0 && !IsWhitespace(s[0]) ==> |words| > 0
  {
    if |s| == 0 then []
    else if IsWhitespace(s[0]) then Words(s[1..])
    else if |s| == 1 || IsWhitespace(s[1]) then [s[..1]] + Words(s[1..])
    else
      var rest := Words(s[1..]);
      [s[..1] + rest[0]] + rest[1..]
  }

  // ----- Numbers -----

  predicate IsDecimal(s: string) {
    |s| > 0 && AllDigits(s)
  }

  function TrimZeros(s: string): string {
    if |s| > 0 && s[0] == '0' then TrimZeros(s[1..]) else s
  }

  lemma {:induction false} TrimZerosDigits(s: string)
    requires AllDigits(s)
    ensures AllDigits(TrimZeros(s))
  {
    if |s| > 0 && s[0] == '0' {
      TrimZerosDigits(s[1..]);
    }
  }

  /** A decimal number of at most `max`, leading zeros allowed. */
  function ReadDecimal(s: string, max: U32): Option<nat> {
    if !IsDecimal(s) then None
    else
      TrimZerosDigits(s);
      var digits := TrimZeros(s);
      if |digits| > 10 then None
      else
        var v := DecimalValue(digits);
        if v <= max then Some(v) else None
  }

  /** One to `maxDigits` hexadecimal digits of either case. */
  function ReadHex(s: string, maxDigits: nat): Option<nat> {
    if |s| == 0 || |s| > maxDigits || !AllHex(s) then None
    else if HexValue(s) <= 0xFFFF then Some(HexValue(s))
    else None
  }

  // ----- Octets -----

  predicate IsOctetHex(part: string) {
    1 <= |part| <= 2 && AllHex(part)
  }

  predicate AllOctetHex(parts: seq<string>) {
    forall i :: 0 <= i < |parts| ==> IsOctetHex(parts[i])
  }

  function OctetsOf(parts: seq<string>): (octets: seq<Byte>)
    requires AllOctetHex(parts)
    ensures |octets| == |parts| && forall i :: 0 <= i < |parts| ==> octets[i] == OctetOf(parts[i])
  {
    seq(|parts|, i requires 0 <= i < |parts| => OctetOf(parts[i]))
  }

  function MacSeparator(s: string): char {
    if Lacks(s, '-') then ':' else '-'
  }

  /** Six octets of one or two digits, all separated by `-` or all by `:`. */
  function ReadMac(s: string): Option<seq<Byte>> {
    var parts := Split(s, MacSeparator(s));
    if |parts| == 6 && AllOctetHex(parts) then Some(OctetsOf(parts)) else None
  }

  predicate IsOctetDecimal(part: string) {
    |part| <= 3 && ReadDecimal(part, 255).Some?
  }

  predicate AllOctetDecimal(parts: seq<string>) {
    forall i :: 0 <= i < |parts| ==> IsOctetDecimal(parts[i])
  }

  function DecimalOctets(parts: seq<string>): (octets: seq<Byte>)
    requires AllOctetDecimal(parts)
    ensures |octets| == |parts| && forall i :: 0 <= i < |parts| ==> octets[i] == ReadDecimal(parts[i], 255).value
  {
    seq(|parts|, i requires 0 <= i < |parts| => assert IsOctetDecimal(parts[i]); ReadDecimal(parts[i], 255).value)
  }

  /** Four decimal octets, leading zeros allowed. */
  function ReadIpv4(s: string): Option<seq<Byte>> {
    var parts := Split(s, '.');
    if |parts| == 4 && AllOctetDecimal(parts) then Some(DecimalOctets(parts)) else None
  }

  /** Groups of one or two digits between white space, or one run of digits, an
      odd one with a leading zero. */
  function ReadOctets(s: string, maxOctets: nat): Option<seq<Byte>> {
    var octets :=
      if HasWhitespace(s) then
        var words := Words(s);
        if AllOctetHex(words) then Some(OctetsOf(words)) else None
      else if |s| == 0 || !AllHex(s) then None
      else Some(HexOctets(if |s| % 2 == 1 then "0" + s else s));
    if octets.Some? && 1 <= |octets.value| <= maxOctets then octets else None
  }

  // ----- The three sides of a parameter -----

  function MaxNumber(kind: Kind): U32 {
    match kind
    case VlanPriority => 7
    case ClassOfTraffic => 255
    case Port => 65535
    case PhasorPort => 65535
    case VlanId => 0xFFF
    case _ => 0xFFFF
  }

  function MinNumber(kind: Kind): nat {
    if kind.PhasorPort? then 1025 else 0
  }

  function MaxOctets(kind: Kind): nat {
    match kind
    case Nsap => 20
    case Tsel => 4
    case _ => 8
  }

  predicate IsOsi(kind: Kind) {
    kind.Nsap? || kind.Tsel? || kind.Selector?
  }

  predicate IsDecimalKind(kind: Kind) {
    kind.VlanPriority? || kind.Port? || kind.PhasorPort? || kind.ClassOfTraffic?
  }

  function OctetsValue(octets: Option<seq<Byte>>): Option<Value> {
    if octets.Some? then Some(Octets(octets.value)) else None
  }

  function NumberValue(n: Option<nat>, min: nat): Option<Value> {
    if n.Some? && n.value >= min then Some(Number(n.value)) else None
  }

  /** What a value reads as, white space around it removed. */
  function Read(kind: Kind, text: string): Option<Value> {
    if kind.Ipv4? then OctetsValue(ReadIpv4(text))
    else if kind.Mac? then OctetsValue(ReadMac(text))
    else if kind.AppId? then NumberValue(ReadHex(text, 4), 0)
    else if kind.VlanId? then NumberValue(ReadHex(text, 3), 0)
    else if IsOsi(kind) then OctetsValue(ReadOctets(text, MaxOctets(kind)))
    else NumberValue(ReadDecimal(text, MaxNumber(kind)), MinNumber(kind))
  }

  function DecimalTexts(octets: seq<Byte>): (texts: seq<string>)
    ensures |texts| == |octets| && forall i :: 0 <= i < |octets| ==> texts[i] == Decimal(octets[i])
  {
    seq(|octets|, i requires 0 <= i < |octets| => Decimal(octets[i]))
  }

  function HexTexts(octets: seq<Byte>): (texts: seq<string>)
    ensures |texts| == |octets| && forall i :: 0 <= i < |octets| ==> texts[i] == OctetText(octets[i])
  {
    seq(|octets|, i requires 0 <= i < |octets| => OctetText(octets[i]))
  }

  /** The values of a kind. */
  predicate Valid(kind: Kind, v: Value) {
    match v
    case Octets(o) =>
      if kind.Ipv4? then |o| == 4
      else if kind.Mac? then |o| == 6
      else IsOsi(kind) && 1 <= |o| <= MaxOctets(kind)
    case Number(n) =>
      (kind.AppId? || kind.VlanId? || IsDecimalKind(kind)) && MinNumber(kind) <= n <= MaxNumber(kind)
  }

  /** A value in the schema form. */
  function Format(kind: Kind, v: Value): string
    requires Valid(kind, v)
  {
    match v
    case Octets(o) =>
      if kind.Ipv4? then Join(DecimalTexts(o), '.')
      else if kind.Mac? then Join(HexTexts(o), '-')
      else OctetsText(o)
    case Number(n) =>
      if kind.AppId? then HexFixed(n, 4)
      else if kind.VlanId? then HexFixed(n, 3)
      else Decimal(n)
  }

  predicate IsUpperHex(s: string) {
    |s| > 0 && AllUpper(s)
  }

  predicate IsEvenUpperHex(s: string, maxLen: nat) {
    |s| <= maxLen && |s| % 2 == 0 && IsUpperHex(s)
  }

  predicate IsCanonicalDecimal(s: string) {
    IsDecimal(s) && (|s| > 1 ==> s[0] != '0') && |s| <= 5
  }

  /** One octet of the dotted form of the schema. */
  predicate IsSchemaOctet(part: string) {
    IsDecimal(part) && |part| <= 3 && (|part| == 3 ==> part[0] != '0') && DecimalValue(part) <= 255
  }

  /** The value has the schema form of its kind. */
  predicate Check(kind: Kind, value: string) {
    && |value| > 0 && Lacks(value, '\r') && Lacks(value, '\n') && Lacks(value, '\t')
    && match kind
       case Ipv4 =>
         var parts := Split(value, '.');
         |parts| == 4 && forall i :: 0 <= i < |parts| ==> IsSchemaOctet(parts[i])
       case Mac =>
         var parts := Split(value, '-');
         |value| == 17 && |parts| == 6 && forall i :: 0 <= i < |parts| ==> |parts[i]| == 2 && IsUpperHex(parts[i])
       case AppId => |value| == 4 && IsUpperHex(value)
       case VlanId => |value| == 3 && IsUpperHex(value)
       case VlanPriority => |value| == 1 && '0' <= value[0] <= '7'
       case Port => IsCanonicalDecimal(value) && DecimalValue(value) <= 65535
       case PhasorPort => IsCanonicalDecimal(value) && 1025 <= DecimalValue(value) <= 65535
       case ClassOfTraffic => IsCanonicalDecimal(value) && DecimalValue(value) <= 255
       case Nsap => IsEvenUpperHex(value, 40)
       case Tsel => IsEvenUpperHex(value, 8)
       case Selector => IsEvenUpperHex(value, 16)
  }

  /** The value as read, written in the schema form. */
  function SchemaValue(kind: Kind, value: string): Option<string> {
    var text := Trim(value);
    if |text| == 0 then None
    else
      ReadIsValid(kind, text);
      var v := Read(kind, text);
      if v.Some? then Some(Format(kind, v.value)) else None
  }

  lemma ReadIsValid(kind: Kind, text: string)
    ensures Read(kind, text).Some? ==> Valid(kind, Read(kind, text).value)
  {
    if kind.VlanId? && ReadHex(text, 3).Some? {
      HexBelow(text, 3);
    }
  }

  lemma {:induction false} Pow16Monotone(a: nat, b: nat)
    requires a <= b
    ensures Pow16(a) <= Pow16(b)
    decreases b
  {
    if a < b {
      Pow16Monotone(a, b - 1);
    }
  }

  lemma HexBelow(s: string, width: nat)
    requires AllHex(s) && |s| <= width
    ensures HexValue(s) < Pow16(width)
    ensures width == 3 ==> HexValue(s) <= 0xFFF
  {
    HexValueBound(s);
    Pow16Monotone(|s|, width);
    Pow16Values();
  }
}
