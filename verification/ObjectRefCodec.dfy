/** The reference parsers and printers as the program runs them. */
module ObjectRefCodec {
  import opened Wrappers
  import opened Sequences
  import opened Text
  import opened ObjectRef

  /** Pushes the name of a token and its index onto a path. */
  method PushTokenWithIndex(path: seq<Segment>, token: string) returns (r: Result<seq<Segment>, ModelError>)
    ensures r == match ParseToken(token) case Ok(segments) => Ok(path + segments) case Err(e) => Err(e)
  {
    var open := Position(token, '(');
    if open < |token| {
      if token[|token| - 1] != ')' {
        return Err(InvalidObjectRef);
      }
      var name, number := token[..open], token[open + 1..|token| - 1];
      if |name| == 0 || |number| == 0 {
        return Err(InvalidObjectRef);
      }
      var index := ParseU32(number);
      if index.None? {
        return Err(InvalidObjectRef);
      }
      return Ok(path + [Name(name), Index(index.value)]);
    }
    return Ok(path + [Name(token)]);
  }

  lemma {:induction false} ParsePathPrefix(tokens: seq<string>, k: nat)
    requires k <= |tokens| && ParsePath(tokens[..k]).Err?
    ensures ParsePath(tokens) == ParsePath(tokens[..k])
    decreases |tokens|
  {
    if k == |tokens| {
      assert tokens[..k] == tokens;
    } else {
      assert tokens[..|tokens| - 1][..k] == tokens[..k];
      ParsePathPrefix(tokens[..|tokens| - 1], k);
    }
  }

  method ParseTokens(tokens: seq<string>) returns (r: Result<seq<Segment>, ModelError>)
    ensures r == ParsePath(tokens)
  {
    var path: seq<Segment> := [];
    var i := 0;
    while i < |tokens|
      invariant 0 <= i <= |tokens|
      invariant ParsePath(tokens[..i]) == Ok(path)
    {
      assert tokens[..i + 1][..i] == tokens[..i];
      if |tokens[i]| == 0 {
        ParsePathPrefix(tokens, i + 1);
        return Err(InvalidObjectRef);
      }
      var pushed := PushTokenWithIndex(path, tokens[i]);
      if pushed.Err? {
        ParsePathPrefix(tokens, i + 1);
        return pushed;
      }
      path := pushed.value;
      i := i + 1;
    }
    assert tokens[..i] == tokens;
    return Ok(path);
  }

  method ParseMms(s: string) returns (r: Result<ObjectRef, ModelError>)
    ensures r == ReadMms(s)
  {
    if |s| > MAX_LEN {
      return Err(ObjectRefTooLong);
    }
    var slash := Position(s, '/');
    if slash == |s| || slash == 0 {
      return Err(InvalidObjectRef);
    }
    var tokens := Split(s[slash + 1..], '$');
    if |tokens[0]| == 0 || |tokens| < 2 {
      return Err(InvalidObjectRef);
    }
    var fc :- ParseFc(tokens[1]);
    var path :- ParseTokens(tokens[2..]);
    return Ok(ObjectRef(s[..slash], tokens[0], Some(fc), path));
  }

  method ParseIec(s: string) returns (r: Result<ObjectRef, ModelError>)
    ensures r == ReadIec(s)
  {
    if |s| > MAX_LEN {
      return Err(ObjectRefTooLong);
    }
    var slash := Position(s, '/');
    if slash == |s| || slash == 0 {
      return Err(InvalidObjectRef);
    }
    var tokens := Split(s[slash + 1..], '.');
    if |tokens[0]| == 0 {
      return Err(InvalidObjectRef);
    }
    var path :- ParseTokens(tokens[1..]);
    return Ok(ObjectRef(s[..slash], tokens[0], None, path));
  }

  method Parse(s: string) returns (r: Result<ObjectRef, ModelError>)
    ensures r == ReadRef(s)
  {
    if '$' in s {
      r := ParseMms(s);
    } else {
      r := ParseIec(s);
    }
  }

  /** Writes the segments of a path behind what is written already. */
  method PushPath(out: string, path: seq<Segment>, sep: char) returns (text: string)
    ensures text == out + WritePath(path, sep)
  {
    text := out;
    var i := 0;
    while i < |path|
      invariant 0 <= i <= |path|
      invariant text == out + WritePath(path[..i], sep)
    {
      assert path[..i + 1][..i] == path[..i];
      Associative(out, WritePath(path[..i], sep), SegmentText(path[i], sep));
      match path[i] {
        case Name(name) => text := text + ([sep] + name);
        case Index(index) => text := text + IndexText(index);
      }
      i := i + 1;
    }
    assert path[..i] == path;
  }

  /** A reference without a functional constraint is written under ST. */
  method ToMmsString(r: ObjectRef) returns (text: string)
    ensures text == WriteMms(r)
    ensures WellFormedMms(r) ==> ReadMms(text) == Ok(r)
  {
    var head := r.ln + "$" + FcText(if r.fc.Some? then r.fc.value else ST);
    Associative(r.domain + "/", head, WritePath(r.path, '$'));
    text := PushPath(r.domain + "/" + head, r.path, '$');
    MmsRoundTrip(r);
  }

  method ToIecString(r: ObjectRef) returns (text: string)
    ensures text == WriteIec(r)
    ensures WellFormedIec(r) ==> ReadIec(text) == Ok(r)
  {
    Associative(r.domain + "/", r.ln, WritePath(r.path, '.'));
    text := PushPath(r.domain + "/" + r.ln, r.path, '.');
    IecRoundTrip(r);
  }
}
