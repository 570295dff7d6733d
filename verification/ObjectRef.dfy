/** Object references in the two notations: `LD/LN$FC$DO$DA` of IEC 61850-8-1 and
    `LD/LN.DO.DA` of IEC 61850-7-2. */
module ObjectRef {
  import opened Wrappers
  import opened Bytes
  import opened Sequences
  import opened Text

  const MAX_LEN := 128

  datatype FC =
    | ST | MX | SP | SV | CF | DC | SG | SE | SR | OR | BL | EX | CO | US | MS | RP | BR | LG | GO | ALL | NONE

  datatype ModelError = ObjectRefTooLong | InvalidObjectRef | UnknownFc

  datatype Segment = Name(name: string) | Index(index: U32)

  datatype ObjectRef = ObjectRef(domain: string, ln: string, fc: Option<FC>, path: seq<Segment>)

  // ----- Functional constraints -----

  function FcText(fc: FC): string {
    match fc
    case ST => "ST"
    case MX => "MX"
    case SP => "SP"
    case SV => "SV"
    case CF => "CF"
    case DC => "DC"
    case SG => "SG"
    case SE => "SE"
    case SR => "SR"
    case OR => "OR"
    case BL => "BL"
    case EX => "EX"
    case CO => "CO"
    case US => "US"
    case MS => "MS"
    case RP => "RP"
    case BR => "BR"
    case LG => "LG"
    case GO => "GO"
    case ALL => "ALL"
    case NONE => "NONE"
  }

  const FCS: seq<FC> :=
    [ST, MX, SP, SV, CF, DC, SG, SE, SR, OR, BL, EX, CO, US, MS, RP, BR, LG, GO, ALL, NONE]

  /** The functional constraint of a list that is abbreviated so. */
  function FindFc(token: string, fcs: seq<FC>): Result<FC, ModelError> {
    if |fcs| == 0 then Err(UnknownFc)
    else if FcText(fcs[0]) == token then Ok(fcs[0])
    else FindFc(token, fcs[1..])
  }

  function ParseFc(token: string): Result<FC, ModelError> {
    FindFc(token, FCS)
  }

  /** The place of a functional constraint in the list. */
  function Rank(fc: FC): (k: nat)
    ensures k < |FCS| && FCS[k] == fc
  {
    match fc
    case ST => 0
    case MX => 1
    case SP => 2
    case SV => 3
    case CF => 4
    case DC => 5
    case SG => 6
    case SE => 7
    case SR => 8
    case OR => 9
    case BL => 10
    case EX => 11
    case CO => 12
    case US => 13
    case MS => 14
    case RP => 15
    case BR => 16
    case LG => 17
    case GO => 18
    case ALL => 19
    case NONE => 20
  }

  lemma FcTextInjective(a: FC, b: FC)
    requires FcText(a) == FcText(b)
    ensures a == b
  {
    var x, y := FcText(a), FcText(b);
    assert x[0] == y[0] && x[1] == y[1];
  }

  lemma {:induction false} FindFcFinds(token: string, fcs: seq<FC>)
    ensures match FindFc(token, fcs)
            case Ok(fc) => FcText(fc) == token
            case Err(_) => forall i :: 0 <= i < |fcs| ==> FcText(fcs[i]) != token
  {
    if |fcs| > 0 && FcText(fcs[0]) != token {
      FindFcFinds(token, fcs[1..]);
    }
  }

  lemma FcRoundTrip(fc: FC)
    ensures ParseFc(FcText(fc)) == Ok(fc)
  {
    FindFcFinds(FcText(fc), FCS);
    assert FcText(FCS[Rank(fc)]) == FcText(fc);
    FcTextInjective(fc, ParseFc(FcText(fc)).value);
  }

  lemma FcParsed(token: string)
    ensures ParseFc(token).Ok? ==> FcText(ParseFc(token).value) == token
  {
    FindFcFinds(token, FCS);
  }

  lemma FcLacks(fc: FC, c: char)
    requires c == '$' || c == '.' || c == '/' || c == '('
    ensures Lacks(FcText(fc), c) && |FcText(fc)| > 0
  {
  }

  // ----- Tokens and paths -----

  /** A token such as `Name(0)` is a name and an index. */
  function ParseToken(token: string): Result<seq<Segment>, ModelError> {
    var open := Position(token, '(');
    if open == |token| then Ok([Name(token)])
    else if token[|token| - 1] != ')' then Err(InvalidObjectRef)
    else
      var name, number := token[..open], token[open + 1..|token| - 1];
      if |name| == 0 || ParseU32(number).None? then Err(InvalidObjectRef)
      else Ok([Name(name), Index(ParseU32(number).value)])
  }

  function ParsePath(tokens: seq<string>): Result<seq<Segment>, ModelError> {
    if |tokens| == 0 then Ok([])
    else
      var front :- ParsePath(tokens[..|tokens| - 1]);
      var last := tokens[|tokens| - 1];
      if |last| == 0 then Err(InvalidObjectRef)
      else
        var segments :- ParseToken(last);
        Ok(front + segments)
  }

  function IndexText(i: U32): string {
    "(" + Decimal(i) + ")"
  }

  function SegmentText(segment: Segment, sep: char): string {
    match segment
    case Name(n) => [sep] + n
    case Index(i) => IndexText(i)
  }

  function WritePath(path: seq<Segment>, sep: char): string {
    if |path| == 0 then "" else WritePath(path[..|path| - 1], sep) + SegmentText(path[|path| - 1], sep)
  }

  // ----- The two notations -----

  function ReadMms(s: string): Result<ObjectRef, ModelError> {
    if |s| > MAX_LEN then Err(ObjectRefTooLong)
    else
      var slash := Position(s, '/');
      if slash == |s| || slash == 0 then Err(InvalidObjectRef)
      else
        var tokens := Split(s[slash + 1..], '$');
        if |tokens[0]| == 0 || |tokens| < 2 then Err(InvalidObjectRef)
        else
          var fc :- ParseFc(tokens[1]);
          var path :- ParsePath(tokens[2..]);
          Ok(ObjectRef(s[..slash], tokens[0], Some(fc), path))
  }

  function ReadIec(s: string): Result<ObjectRef, ModelError> {
    if |s| > MAX_LEN then Err(ObjectRefTooLong)
    else
      var slash := Position(s, '/');
      if slash == |s| || slash == 0 then Err(InvalidObjectRef)
      else
        var tokens := Split(s[slash + 1..], '.');
        if |tokens[0]| == 0 then Err(InvalidObjectRef)
        else
          var path :- ParsePath(tokens[1..]);
          Ok(ObjectRef(s[..slash], tokens[0], None, path))
  }

  /** A `$` anywhere selects MMS notation. */
  function ReadRef(s: string): Result<ObjectRef, ModelError> {
    if Lacks(s, '$') then ReadIec(s) else ReadMms(s)
  }

  function FcOrDefault(fc: Option<FC>): FC {
    if fc.Some? then fc.value else ST
  }

  function WriteMms(r: ObjectRef): string {
    r.domain + "/" + (r.ln + "$" + FcText(FcOrDefault(r.fc)) + WritePath(r.path, '$'))
  }

  function WriteIec(r: ObjectRef): string {
    r.domain + "/" + (r.ln + WritePath(r.path, '.'))
  }

  // ----- What a reference must be -----

  /** An index stands only right behind a name. */
  predicate Indexed(path: seq<Segment>) {
    forall i :: 0 <= i < |path| && path[i].Index? ==> i > 0 && path[i - 1].Name?
  }

  predicate NameOk(name: string, sep: char) {
    |name| > 0 && Lacks(name, sep) && Lacks(name, '(')
  }

  predicate PathOk(path: seq<Segment>, sep: char) {
    Indexed(path) && forall i :: 0 <= i < |path| && path[i].Name? ==> NameOk(path[i].name, sep)
  }

  predicate PartsOk(r: ObjectRef, sep: char) {
    |r.domain| > 0 && Lacks(r.domain, '/') && |r.ln| > 0 && Lacks(r.ln, sep) && PathOk(r.path, sep)
  }

  predicate WellFormedMms(r: ObjectRef) {
    r.fc.Some? && PartsOk(r, '$') && |WriteMms(r)| <= MAX_LEN
  }

  predicate WellFormedIec(r: ObjectRef) {
    r.fc.None? && PartsOk(r, '.') && |WriteIec(r)| <= MAX_LEN
  }

  // ----- Paths as tokens -----

  /** The tokens of a path. */
  function PathTokens(path: seq<Segment>): seq<string>
    requires Indexed(path)
  {
    if |path| == 0 then []
    else
      var n := |path| - 1;
      match path[n]
      case Name(name) => PathTokens(path[..n]) + [name]
      case Index(i) => PathTokens(path[..n - 1]) + [path[n - 1].name + IndexText(i)]
  }

  /** Each token after its separator. */
  function Tail(tokens: seq<string>, sep: char): string {
    if |tokens| == 0 then "" else Tail(tokens[..|tokens| - 1], sep) + ([sep] + tokens[|tokens| - 1])
  }

  lemma TailSnoc(tokens: seq<string>, last: string, sep: char)
    ensures Tail(tokens + [last], sep) == Tail(tokens, sep) + ([sep] + last)
  {
    assert (tokens + [last])[..|tokens|] == tokens;
  }

  lemma {:induction false} JoinTail(heads: seq<string>, tokens: seq<string>, sep: char)
    requires |heads| > 0
    ensures Join(heads + tokens, sep) == Join(heads, sep) + Tail(tokens, sep)
    decreases |tokens|
  {
    if |tokens| == 0 {
      assert heads + tokens == heads;
    } else {
      var front, last := tokens[..|tokens| - 1], tokens[|tokens| - 1];
      JoinTail(heads, front, sep);
      JoinSnoc(heads + front, last, sep);
      assert tokens == front + [last];
      Associative(heads, front, [last]);
      Associative(Join(heads, sep), Tail(front, sep), [sep] + last);
    }
  }

  lemma {:induction false} JoinSnoc(tokens: seq<string>, last: string, sep: char)
    requires |tokens| > 0
    ensures Join(tokens + [last], sep) == Join(tokens, sep) + ([sep] + last)
  {
    if |tokens| == 1 {
      assert (tokens + [last])[1..] == [last];
    } else {
      JoinSnoc(tokens[1..], last, sep);
      assert (tokens + [last])[1..] == tokens[1..] + [last];
    }
  }

  lemma {:induction false} WritePathIsTail(path: seq<Segment>, sep: char)
    requires Indexed(path)
    ensures WritePath(path, sep) == Tail(PathTokens(path), sep)
  {
    if |path| > 0 {
      var n := |path| - 1;
      var tokens := PathTokens(path);
      match path[n]
      case Name(name) =>
        WritePathIsTail(path[..n], sep);
        assert tokens[..|tokens| - 1] == PathTokens(path[..n]);
      case Index(i) =>
        WritePathIsTail(path[..n - 1], sep);
        assert tokens[..|tokens| - 1] == PathTokens(path[..n - 1]);
        assert path[..n][..n - 1] == path[..n - 1];
        var before, name := WritePath(path[..n - 1], sep), path[n - 1].name;
        Associative(before, [sep] + name, IndexText(i));
        Associative([sep], name, IndexText(i));
    }
  }

  lemma NameToken(name: string, sep: char)
    requires NameOk(name, sep)
    ensures ParseToken(name) == Ok([Name(name)])
  {
    assert Position(name, '(') == |name|;
  }

  lemma IndexToken(name: string, i: U32, sep: char)
    requires NameOk(name, sep) && !IsDigit(sep) && sep != '(' && sep != ')'
    ensures ParseToken(name + IndexText(i)) == Ok([Name(name), Index(i)])
    ensures Lacks(name + IndexText(i), sep)
  {
    DecimalRoundTrip(i);
    DecimalIsDigits(i);
    DigitsLack(Decimal(i), sep);
    NumberedToken(name, Decimal(i), i);
    LacksBetween(Decimal(i), sep);
    LacksConcat(name, IndexText(i), sep);
  }

  lemma LacksBetween(number: string, sep: char)
    requires Lacks(number, sep) && sep != '(' && sep != ')'
    ensures Lacks("(" + number + ")", sep)
  {
    LacksConcat("(" + number, ")", sep);
    LacksConcat("(", number, sep);
  }

  lemma NumberedToken(name: string, number: string, i: U32)
    requires |name| > 0 && Lacks(name, '(') && ParseU32(number) == Some(i)
    ensures ParseToken(name + ("(" + number + ")")) == Ok([Name(name), Index(i)])
  {
    var token := name + ("(" + number + ")");
    Associative("(", number, ")");
    Associative(name, "(", number + ")");
    PositionOf(name, '(', number + ")");
    assert token == name + "(" + (number + ")");
    Middle(name, "(", number + ")");
    Associative(name + "(", number, ")");
    Middle(name + "(", number, ")");
    assert token[|token| - 1] == ')';
  }

  predicate TokensOk(tokens: seq<string>, sep: char) {
    forall i :: 0 <= i < |tokens| ==> |tokens[i]| > 0 && Lacks(tokens[i], sep)
  }

  lemma PathOkPrefix(path: seq<Segment>, n: nat, sep: char)
    requires PathOk(path, sep) && n <= |path|
    ensures PathOk(path[..n], sep)
  {
  }

  lemma ParseSnoc(tokens: seq<string>, last: string, path: seq<Segment>, segments: seq<Segment>)
    requires ParsePath(tokens) == Ok(path) && |last| > 0 && ParseToken(last) == Ok(segments)
    ensures ParsePath(tokens + [last]) == Ok(path + segments)
  {
    assert (tokens + [last])[..|tokens|] == tokens;
  }

  /** The tokens of a path have no separator and are not empty. */
  lemma {:induction false} PathTokensOk(path: seq<Segment>, sep: char)
    requires PathOk(path, sep) && !IsDigit(sep) && sep != '(' && sep != ')'
    ensures TokensOk(PathTokens(path), sep)
  {
    if |path| > 0 {
      var n := |path| - 1;
      if path[n].Name? {
        PathOkPrefix(path, n, sep);
        PathTokensOk(path[..n], sep);
      } else {
        PathOkPrefix(path, n - 1, sep);
        PathTokensOk(path[..n - 1], sep);
        IndexToken(path[n - 1].name, path[n].index, sep);
      }
    }
  }

  lemma ReadBackName(path: seq<Segment>, n: nat, tokens: seq<string>, sep: char)
    requires |path| == n + 1 && path[n].Name? && NameOk(path[n].name, sep) && ParsePath(tokens) == Ok(path[..n])
    ensures ParsePath(tokens + [path[n].name]) == Ok(path)
  {
    NameToken(path[n].name, sep);
    ParseSnoc(tokens, path[n].name, path[..n], [path[n]]);
    assert path[..n] + [path[n]] == path;
  }

  lemma ReadBackIndex(path: seq<Segment>, tokens: seq<string>, token: string)
    requires |path| >= 2 && ParsePath(tokens) == Ok(path[..|path| - 2])
    requires |token| > 0 && ParseToken(token) == Ok([path[|path| - 2], path[|path| - 1]])
    ensures ParsePath(tokens + [token]) == Ok(path)
  {
    ParseSnoc(tokens, token, path[..|path| - 2], [path[|path| - 2], path[|path| - 1]]);
    LastTwo(path);
  }

  /** A path reads back from its tokens. */
  lemma {:induction false} TokensReadBack(path: seq<Segment>, sep: char)
    requires PathOk(path, sep) && !IsDigit(sep) && sep != '(' && sep != ')'
    ensures ParsePath(PathTokens(path)) == Ok(path)
  {
    if |path| > 0 {
      var n := |path| - 1;
      if path[n].Name? {
        PathOkPrefix(path, n, sep);
        TokensReadBack(path[..n], sep);
        ReadBackName(path, n, PathTokens(path[..n]), sep);
      } else {
        PathOkPrefix(path, n - 1, sep);
        TokensReadBack(path[..n - 1], sep);
        IndexToken(path[n - 1].name, path[n].index, sep);
        ReadBackIndex(path, PathTokens(path[..n - 1]), path[n - 1].name + IndexText(path[n].index));
      }
    }
  }

  lemma WriteSnoc(path: seq<Segment>, segment: Segment, sep: char)
    ensures WritePath(path + [segment], sep) == WritePath(path, sep) + SegmentText(segment, sep)
  {
    assert (path + [segment])[..|path|] == path;
  }

  /** What a token parses to is in order. */
  lemma TokenInOrder(token: string, sep: char)
    requires |token| > 0 && Lacks(token, sep) && ParseToken(token).Ok?
    ensures PathOk(ParseToken(token).value, sep)
  {
    var open := Position(token, '(');
    if open == |token| {
      assert token[..open] == token;
    }
  }

  /** What a token parses to: a name, or a name and an index, that print no
      longer. */
  lemma TokenLength(token: string)
    requires ParseToken(token).Ok?
    ensures var segments := ParseToken(token).value;
            && 1 <= |segments| <= 2 && segments[0].Name?
            && (|segments| == 1 ==> |segments[0].name| <= |token|)
            && (|segments| == 2 ==>
                  segments[1].Index? && |segments[0].name| + |Decimal(segments[1].index)| + 2 <= |token|)
  {
    var open := Position(token, '(');
    if open < |token| {
      ParsedIsShortest(token[open + 1..|token| - 1]);
    }
  }

  lemma WriteTwo(before: seq<Segment>, a: Segment, b: Segment, sep: char)
    ensures |WritePath(before + [a, b], sep)|
            == |WritePath(before, sep)| + |SegmentText(a, sep)| + |SegmentText(b, sep)|
  {
    WriteSnoc(before, a, sep);
    WriteSnoc(before + [a], b, sep);
    assert before + [a, b] == before + [a] + [b];
  }

  lemma TokenAdds(before: seq<Segment>, token: string, sep: char)
    requires ParseToken(token).Ok?
    ensures |WritePath(before + ParseToken(token).value, sep)| <= |WritePath(before, sep)| + 1 + |token|
  {
    TokenLength(token);
    var segments := ParseToken(token).value;
    if |segments| == 1 {
      WriteSnoc(before, segments[0], sep);
      assert segments == [segments[0]];
    } else {
      WriteTwo(before, segments[0], segments[1], sep);
      assert segments == [segments[0], segments[1]];
    }
  }

  lemma PathOkConcat(a: seq<Segment>, b: seq<Segment>, sep: char)
    requires PathOk(a, sep) && PathOk(b, sep)
    ensures PathOk(a + b, sep)
  {
  }

  /** What tokens parse to is in order and prints no longer. */
  lemma {:induction false} TokensParsed(tokens: seq<string>, sep: char)
    requires AllLack(tokens, sep) && ParsePath(tokens).Ok?
    ensures var path := ParsePath(tokens).value;
            PathOk(path, sep) && |WritePath(path, sep)| <= |Tail(tokens, sep)|
  {
    if |tokens| > 0 {
      var front, last := tokens[..|tokens| - 1], tokens[|tokens| - 1];
      TokensParsed(front, sep);
      var before, segments := ParsePath(front).value, ParseToken(last).value;
      TokenInOrder(last, sep);
      TokenAdds(before, last, sep);
      PathOkConcat(before, segments, sep);
    }
  }

  // ----- Round trips -----

  /** What follows the `/` splits into its head tokens and those of the path. */
  lemma BodySplits(heads: seq<string>, path: seq<Segment>, sep: char)
    requires |heads| > 0 && AllLack(heads, sep) && PathOk(path, sep)
    requires !IsDigit(sep) && sep != '(' && sep != ')'
    ensures Split(Join(heads, sep) + WritePath(path, sep), sep) == heads + PathTokens(path)
  {
    var tokens := heads + PathTokens(path);
    PathTokensOk(path, sep);
    WritePathIsTail(path, sep);
    JoinTail(heads, PathTokens(path), sep);
    SplitOfJoin(tokens, sep);
  }

  lemma JoinTwo(a: string, b: string, sep: char)
    ensures Join([a, b], sep) == a + [sep] + b
  {
    assert [a, b][1..] == [b];
  }

  lemma DomainSplits(domain: string, body: string)
    requires Lacks(domain, '/')
    ensures var s := domain + "/" + body;
            Position(s, '/') == |domain| && s[..|domain|] == domain && s[|domain| + 1..] == body
  {
    PositionOf(domain, '/', body);
  }

  lemma MmsReadsBack(r: ObjectRef)
    requires WellFormedMms(r)
    ensures ReadMms(WriteMms(r)) == Ok(r)
  {
    var fc := r.fc.value;
    var heads := [r.ln, FcText(fc)];
    var body := r.ln + "$" + FcText(fc) + WritePath(r.path, '$');
    DomainSplits(r.domain, body);
    FcLacks(fc, '$');
    FcRoundTrip(fc);
    JoinTwo(r.ln, FcText(fc), '$');
    BodySplits(heads, r.path, '$');
    TokensReadBack(r.path, '$');
    var tokens := Split(body, '$');
    assert tokens[2..] == PathTokens(r.path);
  }

  lemma IecReadsBack(r: ObjectRef)
    requires WellFormedIec(r)
    ensures ReadIec(WriteIec(r)) == Ok(r)
  {
    var body := r.ln + WritePath(r.path, '.');
    DomainSplits(r.domain, body);
    BodySplits([r.ln], r.path, '.');
    TokensReadBack(r.path, '.');
    var tokens := Split(body, '.');
    assert tokens[1..] == PathTokens(r.path);
  }

  /** What a body reads to is in order and prints no longer. */
  lemma BodyParsed(body: string, sep: char, k: nat)
    requires 0 < k <= |Split(body, sep)| && ParsePath(Split(body, sep)[k..]).Ok?
    ensures var tokens := Split(body, sep);
            var path := ParsePath(tokens[k..]).value;
            && Lacks(tokens[0], sep) && PathOk(path, sep)
            && |Join(tokens[..k], sep)| + |WritePath(path, sep)| <= |body|
  {
    var tokens := Split(body, sep);
    JoinOfSplit(body, sep);
    assert AllLack(tokens[k..], sep);
    TokensParsed(tokens[k..], sep);
    JoinTail(tokens[..k], tokens[k..], sep);
    assert tokens[..k] + tokens[k..] == tokens;
  }

  lemma Lengths(r: ObjectRef)
    ensures |WriteIec(r)| == |r.domain| + 1 + |r.ln| + |WritePath(r.path, '.')|
    ensures |WriteMms(r)| == |r.domain| + 2 + |r.ln| + |FcText(FcOrDefault(r.fc))| + |WritePath(r.path, '$')|
  {
  }

  /** Whatever is accepted has well-formed parts and prints no longer. */
  lemma MmsParsed(s: string)
    requires ReadMms(s).Ok?
    ensures var r := ReadMms(s).value; r.fc.Some? && PartsOk(r, '$') && |WriteMms(r)| <= |s|
  {
    var slash := Position(s, '/');
    var body := s[slash + 1..];
    var tokens := Split(body, '$');
    BodyParsed(body, '$', 2);
    JoinTwo(tokens[0], tokens[1], '$');
    assert tokens[..2] == [tokens[0], tokens[1]];
    FcParsed(tokens[1]);
    Lengths(ReadMms(s).value);
  }

  lemma IecShape(s: string) returns (slash: nat, tokens: seq<string>)
    requires ReadIec(s).Ok?
    ensures 0 < slash < |s| && Lacks(s[..slash], '/') && tokens == Split(s[slash + 1..], '.')
    ensures |tokens[0]| > 0 && ParsePath(tokens[1..]).Ok?
    ensures ReadIec(s).value == ObjectRef(s[..slash], tokens[0], None, ParsePath(tokens[1..]).value)
  {
    slash := Position(s, '/');
    tokens := Split(s[slash + 1..], '.');
  }

  lemma OneHead(tokens: seq<string>, sep: char)
    requires |tokens| > 0
    ensures Join(tokens[..1], sep) == tokens[0]
  {
  }

  lemma IecParsed(s: string)
    requires ReadIec(s).Ok?
    ensures var r := ReadIec(s).value; r.fc.None? && PartsOk(r, '.') && |WriteIec(r)| <= |s|
  {
    var slash, tokens := IecShape(s);
    BodyParsed(s[slash + 1..], '.', 1);
    OneHead(tokens, '.');
    Lengths(ReadIec(s).value);
  }

  /** A reference survives MMS notation exactly when it is well formed. */
  lemma MmsRoundTrip(r: ObjectRef)
    ensures ReadMms(WriteMms(r)) == Ok(r) <==> WellFormedMms(r)
  {
    if WellFormedMms(r) {
      MmsReadsBack(r);
    }
    if ReadMms(WriteMms(r)) == Ok(r) {
      MmsParsed(WriteMms(r));
    }
  }

  lemma IecRoundTrip(r: ObjectRef)
    ensures ReadIec(WriteIec(r)) == Ok(r) <==> WellFormedIec(r)
  {
    if WellFormedIec(r) {
      IecReadsBack(r);
    }
    if ReadIec(WriteIec(r)) == Ok(r) {
      IecParsed(WriteIec(r));
    }
  }

  /** Every accepted text prints to one no longer that reads the same. */
  lemma MmsNormalForm(s: string)
    requires ReadMms(s).Ok?
    ensures var t := WriteMms(ReadMms(s).value); |t| <= |s| && ReadMms(t) == ReadMms(s)
  {
    MmsParsed(s);
    MmsReadsBack(ReadMms(s).value);
  }

  lemma IecNormalForm(s: string)
    requires ReadIec(s).Ok?
    ensures var t := WriteIec(ReadIec(s).value); |t| <= |s| && ReadIec(t) == ReadIec(s)
  {
    IecParsed(s);
    IecReadsBack(ReadIec(s).value);
  }

  // ----- Telling the notations apart -----

  predicate PathLacks(path: seq<Segment>, c: char) {
    forall i :: 0 <= i < |path| && path[i].Name? ==> Lacks(path[i].name, c)
  }

  /** The notation of a reference: MMS with a functional constraint. */
  function WriteRef(r: ObjectRef): string {
    if r.fc.Some? then WriteMms(r) else WriteIec(r)
  }

  lemma {:induction false} WritePathLacks(path: seq<Segment>, sep: char, c: char)
    requires c != sep && !IsDigit(c) && c != '(' && c != ')'
    ensures Lacks(WritePath(path, sep), c) <==> PathLacks(path, c)
  {
    if |path| > 0 {
      var n := |path| - 1;
      WritePathLacks(path[..n], sep, c);
      SegmentLacks(path[n], sep, c);
      LacksConcat(WritePath(path[..n], sep), SegmentText(path[n], sep), c);
      PathLacksLast(path, n, c);
    }
  }

  lemma PathLacksLast(path: seq<Segment>, n: nat, c: char)
    requires |path| == n + 1
    ensures PathLacks(path, c) <==> PathLacks(path[..n], c) && (path[n].Name? ==> Lacks(path[n].name, c))
  {
    assert forall i :: 0 <= i < n ==> path[..n][i] == path[i];
  }

  lemma SegmentLacks(segment: Segment, sep: char, c: char)
    requires c != sep && !IsDigit(c) && c != '(' && c != ')'
    ensures Lacks(SegmentText(segment, sep), c) <==> (segment.Name? ==> Lacks(segment.name, c))
  {
    match segment
    case Name(name) => LacksConcat([sep], name, c);
    case Index(i) =>
      DecimalIsDigits(i);
      DigitsLack(Decimal(i), c);
      LacksBetween(Decimal(i), c);
  }

  lemma IecLacks(r: ObjectRef)
    ensures Lacks(WriteIec(r), '$') <==> Lacks(r.domain, '$') && Lacks(r.ln, '$') && PathLacks(r.path, '$')
  {
    LacksConcat(r.domain + "/", r.ln + WritePath(r.path, '.'), '$');
    LacksConcat(r.domain, "/", '$');
    LacksConcat(r.ln, WritePath(r.path, '.'), '$');
    WritePathLacks(r.path, '.', '$');
  }

  lemma MmsHasDollar(r: ObjectRef)
    ensures !Lacks(WriteMms(r), '$')
  {
    assert WriteMms(r)[|r.domain| + 1 + |r.ln|] == '$';
  }

  /** Detecting the notation loses nothing: a reference survives exactly when it
      is well formed in its notation and, in IEC notation, holds no `$`. */
  lemma RefRoundTrip(r: ObjectRef)
    ensures ReadRef(WriteRef(r)) == Ok(r) <==>
              if r.fc.Some? then WellFormedMms(r)
              else WellFormedIec(r) && Lacks(r.domain, '$') && Lacks(r.ln, '$') && PathLacks(r.path, '$')
  {
    if r.fc.Some? {
      MmsHasDollar(r);
      MmsRoundTrip(r);
    } else {
      IecLacks(r);
      IecRoundTrip(r);
      if ReadMms(WriteIec(r)).Ok? {
        MmsParsed(WriteIec(r));
      }
    }
  }

  /** Every accepted text prints to one no longer that reads the same. */
  lemma RefNormalForm(s: string)
    requires ReadRef(s).Ok?
    ensures var t := WriteRef(ReadRef(s).value); |t| <= |s| && ReadRef(t) == ReadRef(s)
  {
    var r := ReadRef(s).value;
    if Lacks(s, '$') {
      IecParsed(s);
      IecNormalForm(s);
      IecKeepsDollarFree(s);
    } else {
      MmsParsed(s);
      MmsNormalForm(s);
      MmsHasDollar(r);
    }
  }

  lemma IecKeepsDollarFree(s: string)
    requires Lacks(s, '$') && ReadIec(s).Ok?
    ensures Lacks(WriteIec(ReadIec(s).value), '$')
  {
    var r := ReadIec(s).value;
    var slash := Position(s, '/');
    var body := s[slash + 1..];
    SplitLacks(body, '.', '$');
    var tokens := Split(body, '.');
    PathKeepsFree(tokens[1..], '$');
    IecLacks(r);
  }

  lemma {:induction false} PathKeepsFree(tokens: seq<string>, c: char)
    requires AllLack(tokens, c) && ParsePath(tokens).Ok?
    ensures PathLacks(ParsePath(tokens).value, c)
  {
    if |tokens| > 0 {
      PathKeepsFree(tokens[..|tokens| - 1], c);
      var last := tokens[|tokens| - 1];
      assert Lacks(last, c);
      assert forall n :: 0 <= n <= |last| ==> Lacks(last[..n], c);
      var before, segments := ParsePath(tokens[..|tokens| - 1]).value, ParseToken(last).value;
      assert PathLacks(segments, c);
      assert PathLacks(before + segments, c);
    }
  }
}
