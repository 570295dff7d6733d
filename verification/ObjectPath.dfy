/** The MMS address a reference and a functional constraint name. */
module ObjectPath {
  import opened Wrappers
  import opened Bytes
  import opened Sequences
  import opened Text
  import opened ObjectRef
  import C = ObjectRefCodec

  datatype ArrayElement = ArrayElement(index: U32, component: Option<string>)

  datatype Address = Address(domain: string, itemId: string, element: Option<ArrayElement>)

  datatype ClientError = InvalidArgument

  /** An item identifier under way, and the array element with the component
      names behind its index. */
  datatype Scanned = Scanned(item: string, element: Option<(U32, string)>)

  function Push(s: Scanned, segment: Segment): Result<Scanned, ClientError> {
    match segment
    case Name(n) =>
      if s.element.None? then Ok(s.(item := s.item + ("$" + n)))
      else
        var component := s.element.value.1;
        Ok(s.(element := Some((s.element.value.0, if |component| == 0 then n else component + ("$" + n)))))
    case Index(i) => if s.element.Some? then Err(InvalidArgument) else Ok(s.(element := Some((i, ""))))
  }

  function Scan(start: string, path: seq<Segment>): Result<Scanned, ClientError> {
    if |path| == 0 then Ok(Scanned(start, None))
    else
      var front :- Scan(start, path[..|path| - 1]);
      Push(front, path[|path| - 1])
  }

  function ElementOf(element: Option<(U32, string)>): Option<ArrayElement> {
    if element.None? then None
    else Some(ArrayElement(element.value.0, if |element.value.1| == 0 then None else Some(element.value.1)))
  }

  predicate SingleFc(fc: FC) {
    fc != ALL && fc != NONE
  }

  /** The address of a parsed reference. */
  function AddressOf(r: ObjectRef, fc: FC): Result<Address, ClientError> {
    var scanned :- Scan(r.ln + "$" + FcText(fc), r.path);
    Ok(Address(r.domain, scanned.item, ElementOf(scanned.element)))
  }

  function Resolve(reference: string, fc: FC): Result<Address, ClientError> {
    if !SingleFc(fc) then Err(InvalidArgument)
    else
      match ReadRef(reference)
      case Err(_) => Err(InvalidArgument)
      case Ok(r) => if r.fc.Some? && r.fc.value != fc then Err(InvalidArgument) else AddressOf(r, fc)
  }

  // ----- What an address says -----

  function NamesOf(names: seq<string>): (path: seq<Segment>)
    ensures |path| == |names| && forall i :: 0 <= i < |names| ==> path[i] == Name(names[i])
  {
    seq(|names|, i requires 0 <= i < |names| => Name(names[i]))
  }

  /** The names behind an index, joined; none for no names. */
  function ComponentOf(names: seq<string>): Option<string> {
    if |names| == 0 then None else Some(Join(names, '$'))
  }

  predicate AllNonempty(names: seq<string>) {
    forall i :: 0 <= i < |names| ==> |names[i]| > 0
  }

  /** Names alone extend the item identifier. */
  lemma {:induction false} ScanNames(heads: seq<string>, names: seq<string>)
    requires |heads| > 0
    ensures Scan(Join(heads, '$'), NamesOf(names)) == Ok(Scanned(Join(heads + names, '$'), None))
    decreases |names|
  {
    var start := Join(heads, '$');
    if |names| == 0 {
      assert heads + names == heads;
    } else {
      var front, last := names[..|names| - 1], names[|names| - 1];
      ScanNames(heads, front);
      assert NamesOf(names)[..|front|] == NamesOf(front);
      JoinSnoc(heads + front, last, '$');
      assert heads + names == heads + front + [last];
    }
  }

  function JoinedOrEmpty(names: seq<string>): string {
    if |names| == 0 then "" else Join(names, '$')
  }

  lemma ScanSnoc(start: string, path: seq<Segment>, segment: Segment)
    requires Scan(start, path).Ok?
    ensures Scan(start, path + [segment]) == Push(Scan(start, path).value, segment)
  {
    assert (path + [segment])[..|path|] == path;
  }

  /** Behind an index, names extend the component. */
  lemma {:induction false} ScanElement(start: string, before: seq<Segment>, item: string, i: U32, names: seq<string>)
    requires Scan(start, before) == Ok(Scanned(item, None)) && AllNonempty(names)
    ensures Scan(start, before + [Index(i)] + NamesOf(names)) == Ok(Scanned(item, Some((i, JoinedOrEmpty(names)))))
    decreases |names|
  {
    var indexed := before + [Index(i)];
    if |names| == 0 {
      ScanSnoc(start, before, Index(i));
      assert indexed + NamesOf(names) == indexed;
    } else {
      var front, last := names[..|names| - 1], names[|names| - 1];
      assert names == front + [last];
      ScanElement(start, before, item, i, front);
      ScanSnoc(start, indexed + NamesOf(front), Name(last));
      NamesSnoc(front, last);
      Associative(indexed, NamesOf(front), [Name(last)]);
      ComponentGrows(front, last);
    }
  }

  lemma ComponentGrows(names: seq<string>, last: string)
    requires AllNonempty(names)
    ensures JoinedOrEmpty(names + [last])
            == if |JoinedOrEmpty(names)| == 0 then last else JoinedOrEmpty(names) + ("$" + last)
  {
    if |names| > 0 {
      JoinSnoc(names, last, '$');
      JoinNonempty(names);
    }
  }

  lemma JoinNonempty(names: seq<string>)
    requires |names| > 0 && AllNonempty(names)
    ensures |Join(names, '$')| > 0
  {
  }

  /** The address of a reference without an index. */
  lemma PlainAddress(r: ObjectRef, fc: FC, names: seq<string>)
    requires r.path == NamesOf(names)
    ensures AddressOf(r, fc) == Ok(Address(r.domain, Join([r.ln, FcText(fc)] + names, '$'), None))
  {
    JoinTwo(r.ln, FcText(fc), '$');
    ScanNames([r.ln, FcText(fc)], names);
  }

  /** The address of a reference with one index. */
  lemma ElementAddress(r: ObjectRef, fc: FC, names: seq<string>, i: U32, component: seq<string>)
    requires r.path == NamesOf(names) + [Index(i)] + NamesOf(component) && AllNonempty(component)
    ensures AddressOf(r, fc)
            == Ok(Address(r.domain, Join([r.ln, FcText(fc)] + names, '$'),
                          Some(ArrayElement(i, ComponentOf(component)))))
  {
    JoinTwo(r.ln, FcText(fc), '$');
    ScanNames([r.ln, FcText(fc)], names);
    ScanElement(Join([r.ln, FcText(fc)], '$'), NamesOf(names), Join([r.ln, FcText(fc)] + names, '$'), i, component);
    if |component| > 0 {
      JoinNonempty(component);
    }
  }

  // ----- The notations agree -----

  /** The parts of a reference that both notations can carry. */
  predicate InBoth(r: ObjectRef) {
    && PartsOk(r, '$') && PartsOk(r, '.') && Lacks(r.domain, '$')
    && |WriteMms(r)| <= MAX_LEN && |WriteIec(r)| <= MAX_LEN
  }

  /** The two spellings of a reference resolve to the same address, or are both
      refused. */
  lemma NotationsAgree(r: ObjectRef, fc: FC)
    requires InBoth(r) && r.fc == Some(fc)
    ensures Resolve(WriteMms(r), fc) == Resolve(WriteIec(r), fc)
  {
    var plain := r.(fc := None);
    assert WriteIec(plain) == WriteIec(r);
    RefRoundTrip(r);
    RefRoundTrip(plain);
  }

  // ----- An address names one reference -----

  function IndexCount(path: seq<Segment>): nat {
    if |path| == 0 then 0
    else IndexCount(path[..|path| - 1]) + if path[|path| - 1].Index? then 1 else 0
  }

  /** A path is refused exactly when it has more than one index. */
  lemma {:induction false} ScanExactly(start: string, path: seq<Segment>)
    ensures Scan(start, path).Ok? <==> IndexCount(path) <= 1
    ensures Scan(start, path).Ok? ==> (Scan(start, path).value.element.Some? <==> IndexCount(path) == 1)
  {
    if |path| > 0 {
      ScanExactly(start, path[..|path| - 1]);
    }
  }

  lemma NamesSnoc(names: seq<string>, last: string)
    ensures NamesOf(names + [last]) == NamesOf(names) + [Name(last)]
  {
  }

  /** A path with at most one index: names, and behind the index more names. */
  lemma {:induction false} Shape(path: seq<Segment>) returns (names: seq<string>, i: U32, component: seq<string>)
    requires IndexCount(path) <= 1
    ensures IndexCount(path) == 0 ==> path == NamesOf(names)
    ensures IndexCount(path) == 1 ==> path == NamesOf(names) + [Index(i)] + NamesOf(component)
  {
    names, i, component := [], 0, [];
    if |path| > 0 {
      var front, last := path[..|path| - 1], path[|path| - 1];
      names, i, component := Shape(front);
      assert path == front + [last];
      if last.Index? {
        i, component := last.index, [];
      } else if IndexCount(front) == 0 {
        NamesSnoc(names, last.name);
        names := names + [last.name];
      } else {
        NamesSnoc(component, last.name);
        assert NamesOf(names) + [Index(i)] + NamesOf(component) + [last]
            == NamesOf(names) + [Index(i)] + (NamesOf(component) + [last]);
        component := component + [last.name];
      }
    }
  }

  /** The parts an address is made of hold no `$` and no name is empty. */
  predicate DollarFree(r: ObjectRef) {
    && Lacks(r.ln, '$')
    && forall i :: 0 <= i < |r.path| && r.path[i].Name? ==> |r.path[i].name| > 0 && Lacks(r.path[i].name, '$')
  }

  lemma DollarFreeNames(r: ObjectRef, at: nat, names: seq<string>)
    requires DollarFree(r) && at + |names| <= |r.path| && r.path[at..at + |names|] == NamesOf(names)
    ensures AllNonempty(names) && AllLack(names, '$')
  {
    forall k | 0 <= k < |names|
      ensures |names[k]| > 0 && Lacks(names[k], '$')
    {
      assert r.path[at..at + |names|][k] == r.path[at + k] == Name(names[k]);
    }
  }

  /** The names of a reference, the index and the component names. */
  lemma Parts(r: ObjectRef, fc: FC) returns (names: seq<string>, i: U32, component: seq<string>)
    requires DollarFree(r) && AddressOf(r, fc).Ok?
    ensures AllLack([r.ln, FcText(fc)] + names, '$') && AllLack(component, '$') && AllNonempty(names)
    ensures var a := AddressOf(r, fc).value;
            && a.domain == r.domain && a.itemId == Join([r.ln, FcText(fc)] + names, '$')
            && (a.element.None? ==> r.path == NamesOf(names))
            && (a.element.Some? ==>
                  && a.element.value == ArrayElement(i, ComponentOf(component))
                  && r.path == NamesOf(names) + [Index(i)] + NamesOf(component))
  {
    ScanExactly(r.ln + "$" + FcText(fc), r.path);
    names, i, component := Shape(r.path);
    FcLacks(fc, '$');
    if IndexCount(r.path) == 0 {
      component := [];
      assert r.path[0..|names|] == NamesOf(names);
      DollarFreeNames(r, 0, names);
      PlainAddress(r, fc, names);
    } else {
      assert r.path[0..|names|] == NamesOf(names);
      DollarFreeNames(r, 0, names);
      var at := |names| + 1;
      assert r.path[at..at + |component|] == NamesOf(component);
      DollarFreeNames(r, at, component);
      ElementAddress(r, fc, names, i, component);
    }
  }

  lemma JoinInjective(a: seq<string>, b: seq<string>)
    requires |a| > 0 && |b| > 0 && AllLack(a, '$') && AllLack(b, '$') && Join(a, '$') == Join(b, '$')
    ensures a == b
  {
    SplitOfJoin(a, '$');
    SplitOfJoin(b, '$');
  }

  lemma ComponentInjective(a: seq<string>, b: seq<string>)
    requires AllLack(a, '$') && AllLack(b, '$') && ComponentOf(a) == ComponentOf(b)
    ensures a == b
  {
    if |a| > 0 {
      JoinInjective(a, b);
    }
  }

  /** Two references with the same address under one functional constraint are
      the same reference. */
  lemma AddressInjective(q: ObjectRef, r: ObjectRef, fc: FC)
    requires DollarFree(q) && DollarFree(r) && AddressOf(q, fc).Ok? && AddressOf(q, fc) == AddressOf(r, fc)
    ensures q.domain == r.domain && q.ln == r.ln && q.path == r.path
  {
    var qNames, qIndex, qComponent := Parts(q, fc);
    var rNames, rIndex, rComponent := Parts(r, fc);
    var a, b := [q.ln, FcText(fc)] + qNames, [r.ln, FcText(fc)] + rNames;
    JoinInjective(a, b);
    assert a[0] == q.ln && b[0] == r.ln && a[2..] == qNames && b[2..] == rNames;
    if AddressOf(q, fc).value.element.Some? {
      ComponentInjective(qComponent, rComponent);
    }
  }

  /** Whatever is read holds no `$` in its names. */
  lemma ReadIsDollarFree(s: string)
    requires ReadRef(s).Ok?
    ensures DollarFree(ReadRef(s).value)
  {
    if Lacks(s, '$') {
      IecParsed(s);
      IecKeepsDollarFree(s);
      IecLacks(ReadRef(s).value);
    } else {
      MmsParsed(s);
    }
  }

  /** No two references, in either notation, resolve to the same address. */
  lemma ResolveInjective(a: string, b: string, fc: FC)
    requires Resolve(a, fc).Ok? && Resolve(a, fc) == Resolve(b, fc)
    ensures var q, r := ReadRef(a).value, ReadRef(b).value;
            q.domain == r.domain && q.ln == r.ln && q.path == r.path
  {
    ReadIsDollarFree(a);
    ReadIsDollarFree(b);
    AddressInjective(ReadRef(a).value, ReadRef(b).value, fc);
  }

  // ----- The loop -----

  lemma {:induction false} ScanPrefix(start: string, path: seq<Segment>, k: nat)
    requires k <= |path| && Scan(start, path[..k]).Err?
    ensures Scan(start, path) == Scan(start, path[..k])
    decreases |path|
  {
    if k == |path| {
      assert path[..k] == path;
    } else {
      assert path[..|path| - 1][..k] == path[..k];
      ScanPrefix(start, path[..|path| - 1], k);
    }
  }

  /** One segment more. */
  lemma ScanStep(start: string, path: seq<Segment>, i: nat)
    requires i < |path| && Scan(start, path[..i]).Ok?
    ensures var pushed := Push(Scan(start, path[..i]).value, path[i]);
            Scan(start, path[..i + 1]) == pushed && (pushed.Err? ==> Scan(start, path) == pushed)
  {
    assert path[..i + 1] == path[..i] + [path[i]];
    ScanSnoc(start, path[..i], path[i]);
    if Push(Scan(start, path[..i]).value, path[i]).Err? {
      ScanPrefix(start, path, i + 1);
    }
  }

  /** What the loop has collected. */
  function Collected(item: string, index: Option<U32>, component: string): Scanned {
    Scanned(item, if index.Some? then Some((index.value, component)) else None)
  }

  /** Collects the item identifier of a path, and behind an index the names of
      its component. */
  method ScanSegments(start: string, path: seq<Segment>) returns (r: Result<Scanned, ClientError>)
    ensures r == Scan(start, path)
  {
    var item := start;
    var index: Option<U32> := None;
    var component := "";
    var i := 0;
    while i < |path|
      invariant 0 <= i <= |path|
      invariant Scan(start, path[..i]) == Ok(Collected(item, index, component))
    {
      ScanStep(start, path, i);
      match path[i] {
        case Name(name) =>
          if index.None? {
            item := item + ("$" + name);
          } else if |component| > 0 {
            component := component + ("$" + name);
          } else {
            component := name;
          }
        case Index(k) =>
          if index.Some? {
            return Err(InvalidArgument);
          }
          index, component := Some(k), "";
      }
      i := i + 1;
    }
    assert path[..i] == path;
    return Ok(Collected(item, index, component));
  }

  /** Resolves a reference and a functional constraint into an MMS address. */
  method ParseIecObjectPath(reference: string, fc: FC) returns (r: Result<Address, ClientError>)
    ensures r == Resolve(reference, fc)
  {
    if fc == NONE || fc == ALL {
      return Err(InvalidArgument);
    }
    var parsed := C.Parse(reference);
    if parsed.Err? || (parsed.value.fc.Some? && parsed.value.fc.value != fc) {
      return Err(InvalidArgument);
    }
    var scanned :- ScanSegments(parsed.value.ln + "$" + FcText(fc), parsed.value.path);
    return Ok(Address(parsed.value.domain, scanned.item, ElementOf(scanned.element)));
  }
}
