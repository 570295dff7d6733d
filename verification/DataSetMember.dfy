/** Data set members: the MMS name of a member mapped back to its IEC reference. */
module DataSetMember {
  import opened Wrappers
  import opened Bytes
  import opened Sequences
  import opened Text
  import opened ObjectRef
  import opened ObjectPath

  /** A selection inside a variable. */
  datatype AlternateAccess =
    | AtIndex(index: U32)
    | AtIndexComponent(index: U32, component: string)
    | AtComponent(name: string, nested: Option<AlternateAccess>)

  /** A member as a server lists it; the domain is absent from a name that is not
      domain-specific. */
  datatype Entry = Entry(domain: Option<string>, itemId: string, access: Option<AlternateAccess>)

  datatype Member = Member(reference: string, fc: FC)

  /** The components selected ahead of any index, and what remains. */
  function LeadingComponents(access: Option<AlternateAccess>): (r: (seq<string>, Option<AlternateAccess>))
    ensures r.1.Some? ==> !r.1.value.AtComponent?
  {
    if access.Some? && access.value.AtComponent? then
      var rest := LeadingComponents(access.value.nested);
      ([access.value.name] + rest.0, rest.1)
    else ([], access)
  }

  function AccessText(access: Option<AlternateAccess>): Result<string, ClientError> {
    match access
    case None => Ok("")
    case Some(AtIndex(i)) => Ok(IndexText(i))
    case Some(AtIndexComponent(i, component)) =>
      var names := Split(component, '$');
      if AllNonempty(names) then Ok(IndexText(i) + Tail(names, '.')) else Err(InvalidArgument)
    case Some(AtComponent(_, _)) => Err(InvalidArgument)
  }

  /** The IEC reference and functional constraint of a member. */
  function MemberOf(e: Entry): Result<Member, ClientError> {
    var segments := Split(e.itemId, '$');
    if e.domain.None? || |segments| < 3 || !AllNonempty(segments) || ParseFc(segments[1]).Err? then
      Err(InvalidArgument)
    else
      var fc := ParseFc(segments[1]).value;
      if !SingleFc(fc) then Err(InvalidArgument)
      else
        var leading := LeadingComponents(e.access);
        var access :- AccessText(leading.1);
        var head := e.domain.value + "/" + segments[0] + "." + Join(segments[2..], '.');
        Ok(Member(head + Tail(leading.0, '.') + access, fc))
  }

  // ----- Members resolve back -----

  /** The index selected behind the leading components, if any. */
  function Selection(e: Entry): Option<AlternateAccess> {
    LeadingComponents(e.access).1
  }

  /** The names behind the functional constraint and the leading components. */
  function MemberNames(e: Entry): seq<string>
    requires |Split(e.itemId, '$')| >= 3
  {
    Split(e.itemId, '$')[2..] + LeadingComponents(e.access).0
  }

  /** The names of a component selection behind an index. */
  function ComponentNames(e: Entry): seq<string> {
    var selection := Selection(e);
    if selection.Some? && selection.value.AtIndexComponent? then Split(selection.value.component, '$') else []
  }

  /** The address a member was listed under: a component of an item is the item
      named by both. */
  function Listed(e: Entry): Address
    requires e.domain.Some?
  {
    Address(e.domain.value, Join(Split(e.itemId, '$') + LeadingComponents(e.access).0, '$'),
            match Selection(e)
            case None => None
            case Some(AtIndex(i)) => Some(ArrayElement(i, None))
            case Some(AtIndexComponent(i, component)) => Some(ArrayElement(i, Some(component))))
  }

  /** The reference a member is mapped to, before it is printed. */
  function RefOf(e: Entry): ObjectRef
    requires e.domain.Some? && |Split(e.itemId, '$')| >= 3
  {
    var names := NamesOf(MemberNames(e));
    ObjectRef(e.domain.value, Split(e.itemId, '$')[0], None,
              if Selection(e).None? then names
              else names + [Index(Selection(e).value.index)] + NamesOf(ComponentNames(e)))
  }

  lemma {:induction false} WriteNames(before: seq<Segment>, names: seq<string>, sep: char)
    ensures WritePath(before + NamesOf(names), sep) == WritePath(before, sep) + Tail(names, sep)
    decreases |names|
  {
    if |names| == 0 {
      assert before + NamesOf(names) == before;
    } else {
      var front, last := names[..|names| - 1], names[|names| - 1];
      WriteNames(before, front, sep);
      assert names == front + [last];
      NamesSnoc(front, last);
      Associative(before, NamesOf(front), [Name(last)]);
      WriteSnoc(before + NamesOf(front), Name(last), sep);
      TailSnoc(front, last, sep);
      Associative(WritePath(before, sep), Tail(front, sep), [sep] + last);
    }
  }

  lemma ElementText(names: seq<string>, i: U32, component: seq<string>)
    ensures WritePath(NamesOf(names) + [Index(i)] + NamesOf(component), '.')
            == Tail(names, '.') + (IndexText(i) + Tail(component, '.'))
  {
    PlainText(names);
    var path := NamesOf(names);
    WriteSnoc(path, Index(i), '.');
    WriteNames(path + [Index(i)], component, '.');
    Associative(Tail(names, '.'), IndexText(i), Tail(component, '.'));
  }

  lemma PlainText(names: seq<string>)
    ensures WritePath(NamesOf(names), '.') == Tail(names, '.')
  {
    WriteNames([], names, '.');
    assert [] + NamesOf(names) == NamesOf(names);
    assert "" + Tail(names, '.') == Tail(names, '.');
  }

  lemma {:induction false} TailConcat(a: seq<string>, b: seq<string>)
    ensures Tail(a + b, '.') == Tail(a, '.') + Tail(b, '.')
    decreases |b|
  {
    if |b| == 0 {
      assert a + b == a;
    } else {
      var front, last := b[..|b| - 1], b[|b| - 1];
      assert b == front + [last];
      TailConcat(a, front);
      Associative(a, front, [last]);
      TailSnoc(a + front, last, '.');
      Associative(Tail(a, '.'), Tail(front, '.'), "." + last);
    }
  }

  lemma SelectionText(e: Entry)
    requires Selection(e).Some? && AccessText(Selection(e)).Ok?
    ensures AccessText(Selection(e)).value == IndexText(Selection(e).value.index) + Tail(ComponentNames(e), '.')
  {
    var text := IndexText(Selection(e).value.index);
    assert text + "" == text;
  }

  /** The path of the reference is printed as the names and the selection. */
  lemma PathText(e: Entry)
    requires MemberOf(e).Ok?
    ensures WritePath(RefOf(e).path, '.') == Tail(MemberNames(e), '.') + AccessText(Selection(e)).value
  {
    var names := MemberNames(e);
    if Selection(e).Some? {
      SelectionText(e);
      ElementText(names, Selection(e).value.index, ComponentNames(e));
    } else {
      PlainText(names);
      assert Tail(names, '.') + "" == Tail(names, '.');
    }
  }

  lemma HeadText(domain: string, ln: string, names: seq<string>)
    requires |names| > 0
    ensures domain + "/" + ln + "." + Join(names, '.') == domain + "/" + (ln + Tail(names, '.'))
  {
    JoinTail([ln], names, '.');
    JoinFirst(ln, names, '.');
    Associative(domain + "/", ln, ".");
    Associative(domain + "/", ln + ".", Join(names, '.'));
  }

  /** A member is printed as its reference is in IEC notation. */
  lemma MemberIsWritten(e: Entry)
    requires MemberOf(e).Ok?
    ensures MemberOf(e).value.reference == WriteIec(RefOf(e))
  {
    var segments, leading := Split(e.itemId, '$'), LeadingComponents(e.access).0;
    var domain, ln, names := e.domain.value, segments[0], segments[2..];
    var access := AccessText(Selection(e)).value;
    HeadText(domain, ln, names);
    PathText(e);
    TailConcat(names, leading);
    var tail := Tail(names, '.') + Tail(leading, '.');
    Associative(domain + "/", ln + Tail(names, '.'), Tail(leading, '.'));
    Associative(ln, Tail(names, '.'), Tail(leading, '.'));
    Associative(domain + "/", ln + tail, access);
    Associative(ln, tail, access);
  }

  /** The names a member is made of survive in IEC notation. */
  predicate Plain(e: Entry)
    requires e.domain.Some? && |Split(e.itemId, '$')| >= 3
  {
    && |e.domain.value| > 0 && Lacks(e.domain.value, '/') && Lacks(e.domain.value, '$')
    && Lacks(Split(e.itemId, '$')[0], '.')
    && AllLack(MemberNames(e) + ComponentNames(e), '.') && AllLack(MemberNames(e) + ComponentNames(e), '(')
    && CleanComponents(e)
    && |WriteIec(RefOf(e))| <= MAX_LEN
  }

  /** No leading component is empty or holds a `$`. */
  predicate CleanComponents(e: Entry) {
    AllNonempty(LeadingComponents(e.access).0) && AllLack(LeadingComponents(e.access).0, '$')
  }

  /** The reference of a member names the address it was listed under. */
  lemma RefHasListedAddress(e: Entry)
    requires MemberOf(e).Ok?
    ensures AddressOf(RefOf(e), MemberOf(e).value.fc) == Ok(Listed(e))
  {
    var segments := Split(e.itemId, '$');
    var fc, names := MemberOf(e).value.fc, MemberNames(e);
    FcParsed(segments[1]);
    assert [segments[0], FcText(fc)] + names == segments + LeadingComponents(e.access).0;
    if Selection(e).None? {
      PlainAddress(RefOf(e), fc, names);
    } else {
      ElementAddress(RefOf(e), fc, names, Selection(e).value.index, ComponentNames(e));
      if Selection(e).value.AtIndexComponent? {
        JoinOfSplit(Selection(e).value.component, '$');
      }
    }
  }

  /** Every name of the reference is one of the member's names. */
  lemma RefNames(e: Entry, i: nat)
    requires e.domain.Some? && |Split(e.itemId, '$')| >= 3
    requires i < |RefOf(e).path| && RefOf(e).path[i].Name?
    ensures RefOf(e).path[i].name in MemberNames(e) + ComponentNames(e)
  {
    var names, component := MemberNames(e), ComponentNames(e);
    var k := if i < |names| then i else i - 1;
    assert (names + component)[k] == RefOf(e).path[i].name;
  }

  lemma NamesOfMember(e: Entry)
    requires MemberOf(e).Ok? && CleanComponents(e)
    ensures var names := MemberNames(e) + ComponentNames(e); AllNonempty(names) && AllLack(names, '$')
  {
    JoinOfSplit(e.itemId, '$');
    if Selection(e).Some? && Selection(e).value.AtIndexComponent? {
      JoinOfSplit(Selection(e).value.component, '$');
    }
  }

  lemma RefIsDollarFree(e: Entry)
    requires MemberOf(e).Ok? && CleanComponents(e)
    ensures DollarFree(RefOf(e)) && |RefOf(e).ln| > 0 && Indexed(RefOf(e).path)
  {
    NamesOfMember(e);
    JoinOfSplit(e.itemId, '$');
    var r := RefOf(e);
    var names := MemberNames(e) + ComponentNames(e);
    forall i | 0 <= i < |r.path| && r.path[i].Name?
      ensures |r.path[i].name| > 0 && Lacks(r.path[i].name, '$')
    {
      RefNames(e, i);
      var k :| 0 <= k < |names| && names[k] == r.path[i].name;
    }
  }

  lemma PlainIsWellFormed(e: Entry)
    requires MemberOf(e).Ok? && Plain(e)
    ensures WellFormedIec(RefOf(e))
  {
    RefIsDollarFree(e);
    NamesOfMember(e);
    var r := RefOf(e);
    var names := MemberNames(e) + ComponentNames(e);
    forall i | 0 <= i < |r.path| && r.path[i].Name?
      ensures NameOk(r.path[i].name, '.')
    {
      RefNames(e, i);
      var k :| 0 <= k < |names| && names[k] == r.path[i].name;
    }
  }

  lemma PlainPathOk(names: seq<string>)
    requires PathOk(NamesOf(names), '.')
    ensures AllLack(names, '.') && AllLack(names, '(')
  {
    forall k | 0 <= k < |names|
      ensures NameOk(names[k], '.')
    {
      assert NamesOf(names)[k] == Name(names[k]);
    }
  }

  lemma ElementPathOk(names: seq<string>, i: U32, component: seq<string>)
    requires PathOk(NamesOf(names) + [Index(i)] + NamesOf(component), '.')
    ensures AllLack(names + component, '.') && AllLack(names + component, '(')
  {
    var path := NamesOf(names) + [Index(i)] + NamesOf(component);
    forall k | 0 <= k < |names + component|
      ensures NameOk((names + component)[k], '.')
    {
      assert path[if k < |names| then k else k + 1] == Name((names + component)[k]);
    }
  }

  lemma WellFormedIsPlain(e: Entry)
    requires MemberOf(e).Ok? && CleanComponents(e) && WellFormedIec(RefOf(e)) && Lacks(e.domain.value, '$')
    ensures Plain(e)
  {
    var names := MemberNames(e);
    if Selection(e).None? {
      PlainPathOk(names);
      assert names + [] == names;
    } else {
      ElementPathOk(names, Selection(e).value.index, ComponentNames(e));
    }
  }

  /** A plain member gives a reference that is well formed, and only it does. */
  lemma PlainExactly(e: Entry)
    requires MemberOf(e).Ok? && CleanComponents(e)
    ensures Plain(e) <==> WellFormedIec(RefOf(e)) && Lacks(e.domain.value, '$')
  {
    if Plain(e) {
      PlainIsWellFormed(e);
    } else if WellFormedIec(RefOf(e)) && Lacks(e.domain.value, '$') {
      WellFormedIsPlain(e);
    }
  }

  /** The first token is as long as what comes ahead of the first separator. */
  lemma {:induction false} FirstToken(head: string, rest: string, c: char)
    requires Lacks(head, c)
    ensures |Split(head + rest, c)[0]| >= |head|
  {
    if |head| > 0 {
      assert (head + rest)[1..] == head[1..] + rest;
      FirstToken(head[1..], rest, c);
    }
  }

  lemma {:induction false} WritePathFirst(path: seq<Segment>, sep: char)
    requires |path| > 0 && path[0].Name?
    ensures |WritePath(path, sep)| > 0 && WritePath(path, sep)[0] == sep
  {
    if |path| > 1 {
      WritePathFirst(path[..|path| - 1], sep);
    } else {
      assert WritePath(path[..0], sep) == "";
    }
  }

  lemma TokenIsLonger(ln: string, text: string)
    requires Lacks(ln, '$') && |text| > 0 && text[0] == '.'
    ensures Split(ln + text, '$')[0] != ln
  {
    assert ln + text == ln + "." + text[1..];
    LacksConcat(ln, ".", '$');
    FirstToken(ln + ".", text[1..], '$');
  }

  lemma MmsHead(domain: string, body: string)
    requires ReadMms(domain + "/" + body).Ok? && ReadMms(domain + "/" + body).value.domain == domain
    ensures ReadMms(domain + "/" + body).value.ln == Split(body, '$')[0]
  {
    var s := domain + "/" + body;
    assert |s[..Position(s, '/')]| == |domain|;
    assert s[|domain| + 1..] == body;
  }

  /** Whatever a printed reference holds, it is not read as MMS notation with the
      same domain and logical node. */
  lemma NotMms(r: ObjectRef)
    requires Lacks(r.ln, '$') && |r.path| > 0 && r.path[0].Name? && ReadMms(WriteIec(r)).Ok?
    ensures ReadMms(WriteIec(r)).value.domain == r.domain ==> ReadMms(WriteIec(r)).value.ln != r.ln
  {
    if ReadMms(WriteIec(r)).value.domain == r.domain {
      MmsHead(r.domain, r.ln + WritePath(r.path, '.'));
      WritePathFirst(r.path, '.');
      TokenIsLonger(r.ln, WritePath(r.path, '.'));
    }
  }

  /** The address a member was listed under begins with its logical node. */
  lemma ListedFirst(e: Entry)
    requires MemberOf(e).Ok?
    ensures Split(Listed(e).itemId, '$')[0] == RefOf(e).ln
  {
    var segments, leading := Split(e.itemId, '$'), LeadingComponents(e.access).0;
    JoinOfSplit(e.itemId, '$');
    assert segments + leading == [segments[0]] + (segments[1..] + leading);
    JoinFirst(segments[0], segments[1..] + leading, '$');
    SplitFirst(segments[0], Join(segments[1..] + leading, '$'), '$');
  }

  /** What resolves to the listed address was not read as MMS notation. */
  lemma ReadAsIec(e: Entry, q: ObjectRef)
    requires MemberOf(e).Ok? && ReadRef(MemberOf(e).value.reference) == Ok(q)
    requires AddressOf(q, MemberOf(e).value.fc) == Ok(Listed(e))
    ensures Lacks(MemberOf(e).value.reference, '$') && q.fc.None?
  {
    var m, r := MemberOf(e).value, RefOf(e);
    MemberIsWritten(e);
    ReadIsDollarFree(m.reference);
    var names, _, _ := Parts(q, m.fc);
    SplitOfJoin([q.ln, FcText(m.fc)] + names, '$');
    ListedFirst(e);
    JoinOfSplit(e.itemId, '$');
    if !Lacks(m.reference, '$') {
      NotMms(r);
    } else {
      IecParsed(m.reference);
    }
  }

  lemma PrintedLacks(e: Entry)
    requires MemberOf(e).Ok? && Lacks(MemberOf(e).value.reference, '$')
    ensures AllLack(LeadingComponents(e.access).0, '$') && Lacks(e.domain.value, '$')
  {
    var r, leading := RefOf(e), LeadingComponents(e.access).0;
    MemberIsWritten(e);
    IecLacks(r);
    forall k | 0 <= k < |leading|
      ensures Lacks(leading[k], '$')
    {
      assert r.path[|Split(e.itemId, '$')| - 2 + k] == Name(leading[k]);
    }
  }

  lemma LastAreNonempty(names: seq<string>, listed: seq<string>, leading: seq<string>, ln: string, fc: string)
    requires [ln, fc] + names == listed + leading && AllNonempty(names) && |listed| >= 2
    ensures AllNonempty(leading)
  {
    forall k | 0 <= k < |leading|
      ensures |leading[k]| > 0
    {
      assert ([ln, fc] + names)[|listed| + k] == leading[k];
      assert names[|listed| - 2 + k] == leading[k];
    }
  }

  /** Its leading components then are neither empty nor hold a `$`. */
  lemma ReadIsClean(e: Entry, q: ObjectRef)
    requires MemberOf(e).Ok? && ReadRef(MemberOf(e).value.reference) == Ok(q)
    requires AddressOf(q, MemberOf(e).value.fc) == Ok(Listed(e))
    ensures CleanComponents(e) && Lacks(e.domain.value, '$')
  {
    var fc, segments, leading := MemberOf(e).value.fc, Split(e.itemId, '$'), LeadingComponents(e.access).0;
    ReadAsIec(e, q);
    PrintedLacks(e);
    ReadIsDollarFree(MemberOf(e).value.reference);
    var names, _, _ := Parts(q, fc);
    JoinOfSplit(e.itemId, '$');
    JoinInjective([q.ln, FcText(fc)] + names, segments + leading);
    LastAreNonempty(names, segments, leading, q.ln, FcText(fc));
  }

  lemma PlainResolves(e: Entry)
    requires MemberOf(e).Ok? && Plain(e)
    ensures var m := MemberOf(e).value; Resolve(m.reference, m.fc) == Ok(Listed(e))
  {
    MemberIsWritten(e);
    RefHasListedAddress(e);
    RefIsDollarFree(e);
    PlainExactly(e);
    RefRoundTrip(RefOf(e));
  }

  /** A member resolves back to the item, index and component it was listed
      under exactly when it is plain: its names hold no `.` or `(`, its leading
      components are not empty and hold no `$`, its domain no `/` or `$`, and the
      reference is not too long. */
  lemma MemberResolvesBack(e: Entry)
    requires MemberOf(e).Ok?
    ensures var m := MemberOf(e).value; Resolve(m.reference, m.fc) == Ok(Listed(e)) <==> Plain(e)
  {
    var m, r := MemberOf(e).value, RefOf(e);
    if Plain(e) {
      PlainResolves(e);
    }
    if Resolve(m.reference, m.fc) == Ok(Listed(e)) {
      var q := ReadRef(m.reference).value;
      ReadIsClean(e, q);
      ReadAsIec(e, q);
      MemberIsWritten(e);
      RefHasListedAddress(e);
      RefIsDollarFree(e);
      ReadIsDollarFree(m.reference);
      AddressInjective(q, r, m.fc);
      assert q == r;
      RefRoundTrip(r);
      PlainExactly(e);
    }
  }

  /** A leading component with a `$`, which no decoder refuses: the member of any
      item with it is mapped to a reference that does not lead back. */
  lemma DollarIsLost(domain: string, ln: string, fc: FC, name: string, component: string)
    requires SingleFc(fc) && |ln| > 0 && Lacks(ln, '$') && |name| > 0 && Lacks(name, '$')
    requires !Lacks(component, '$')
    ensures var e := Entry(Some(domain), Join([ln, FcText(fc), name], '$'), Some(AtComponent(component, None)));
            MemberOf(e).Ok? && Resolve(MemberOf(e).value.reference, MemberOf(e).value.fc) != Ok(Listed(e))
  {
    var segments, access := [ln, FcText(fc), name], Some(AtComponent(component, None));
    var e := Entry(Some(domain), Join(segments, '$'), access);
    FcLacks(fc, '$');
    FcRoundTrip(fc);
    SplitOfJoin(segments, '$');
    OneComponent(component);
    MemberAccepted(e, fc);
    MemberResolvesBack(e);
    assert !Lacks(LeadingComponents(access).0[0], '$');
  }

  lemma OneComponent(component: string)
    ensures LeadingComponents(Some(AtComponent(component, None))) == ([component], None)
  {
    assert LeadingComponents(None) == ([], None);
    assert [component] + [] == [component];
  }

  lemma MemberAccepted(e: Entry, fc: FC)
    requires e.domain.Some? && |Split(e.itemId, '$')| >= 3 && AllNonempty(Split(e.itemId, '$'))
    requires ParseFc(Split(e.itemId, '$')[1]) == Ok(fc) && SingleFc(fc) && Selection(e).None?
    ensures MemberOf(e).Ok?
  {
  }

  // ----- The loops -----

  /** Splits off the components that lead a selection. */
  method SplitLeading(access: Option<AlternateAccess>) returns (names: seq<string>, rest: Option<AlternateAccess>)
    ensures (names, rest) == LeadingComponents(access)
    ensures rest.Some? ==> !rest.value.AtComponent?
  {
    names, rest := [], access;
    assert [] + LeadingComponents(access).0 == LeadingComponents(access).0;
    while rest.Some? && rest.value.AtComponent?
      invariant LeadingComponents(access) == (names + LeadingComponents(rest).0, LeadingComponents(rest).1)
      decreases rest
    {
      Associative(names, [rest.value.name], LeadingComponents(rest.value.nested).0);
      names, rest := names + [rest.value.name], rest.value.nested;
    }
    assert names + [] == names;
  }

  /** Pushes each name behind a `.`. */
  method PushNames(reference: string, names: seq<string>) returns (text: string)
    ensures text == reference + Tail(names, '.')
  {
    text := reference;
    var i := 0;
    while i < |names|
      invariant 0 <= i <= |names|
      invariant text == reference + Tail(names[..i], '.')
    {
      assert names[..i + 1] == names[..i] + [names[i]];
      TailSnoc(names[..i], names[i], '.');
      Associative(reference, Tail(names[..i], '.'), "." + names[i]);
      text := text + ("." + names[i]);
      i := i + 1;
    }
    assert names[..i] == names;
  }

  /** Pushes the names of a component, none of which may be empty. */
  method PushComponent(reference: string, names: seq<string>) returns (r: Result<string, ClientError>)
    ensures r == if AllNonempty(names) then Ok(reference + Tail(names, '.')) else Err(InvalidArgument)
  {
    var text := reference;
    var i := 0;
    while i < |names|
      invariant 0 <= i <= |names|
      invariant text == reference + Tail(names[..i], '.')
      invariant AllNonempty(names[..i])
    {
      if |names[i]| == 0 {
        return Err(InvalidArgument);
      }
      assert names[..i + 1] == names[..i] + [names[i]];
      TailSnoc(names[..i], names[i], '.');
      Associative(reference, Tail(names[..i], '.'), "." + names[i]);
      text := text + ("." + names[i]);
      i := i + 1;
    }
    assert names[..i] == names;
    return Ok(text);
  }

  /** Maps a member back to its IEC reference and functional constraint. */
  method MemberFromEntry(e: Entry) returns (r: Result<Member, ClientError>)
    ensures r == MemberOf(e)
    ensures r.Ok? ==> (Resolve(r.value.reference, r.value.fc) == Ok(Listed(e)) <==> Plain(e))
  {
    if e.domain.None? {
      return Err(InvalidArgument);
    }
    var segments := Split(e.itemId, '$');
    if |segments| < 3 || !AllNonempty(segments) {
      return Err(InvalidArgument);
    }
    var fc := ParseFc(segments[1]);
    if fc.Err? || fc.value == NONE || fc.value == ALL {
      return Err(InvalidArgument);
    }
    var reference := e.domain.value + "/" + segments[0] + "." + Join(segments[2..], '.');
    var components, rest := SplitLeading(e.access);
    reference := PushNames(reference, components);
    match rest {
      case None => assert reference + "" == reference;
      case Some(AtIndex(i)) => reference := reference + IndexText(i);
      case Some(AtIndexComponent(i, component)) =>
        var names := Split(component, '$');
        Associative(reference, IndexText(i), Tail(names, '.'));
        reference :- PushComponent(reference + IndexText(i), names);
    }
    r := Ok(Member(reference, fc.value));
    MemberResolvesBack(e);
  }
}
