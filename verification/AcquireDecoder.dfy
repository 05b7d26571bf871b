/** Unmarshalling of the acquire messages, and that it undoes marshalling. */
module AcquireDecoder {
  import opened Wrappers
  import opened Numbers
  import opened Varint
  import opened AcquireCodec

  // ---------- pieces ----------

  /** The field number, the wire type and where the field's content starts. */
  function ReadTag(d: seq<Byte>, i: nat): (r: Result<(int, nat, nat), Error>)
    ensures r.Success? ==> i < r.value.2 <= |d|
  {
    match ReadAt(d, i, TWO_64)
    case Failure(e) => Failure(e)
    case Success((wire, j)) =>
      var field := Signed(wire / 8 % TWO_32, TWO_32);
      if wire % 8 == 4 then Failure(EndGroup)
      else if field <= 0 then Failure(IllegalTag)
      else Success((field, wire % 8, j))
  }

  /** A length-delimited stretch of bytes. Indices are 64-bit: one that wraps around is refused as negative. */
  function ReadBytes(d: seq<Byte>, i: nat): (r: Result<(seq<Byte>, nat), Error>)
    ensures r.Success? ==> i < r.value.1 <= |d|
  {
    match ReadAt(d, i, TWO_64)
    case Failure(e) => Failure(e)
    case Success((n, j)) =>
      var length := Signed(n, TWO_64);
      if length < 0 || j + length >= TWO_63 then Failure(InvalidLength)
      else if j + length > |d| then Failure(UnexpectedEOF)
      else Success((d[j..j + length], j + length))
  }

  /** A stretch is read exactly when its length is not negative and its end lies within the data. */
  lemma ReadBytesIff(d: seq<Byte>, i: nat, n: nat, j: nat)
    requires ReadAt(d, i, TWO_64) == Success((n, j))
    ensures ReadBytes(d, i).Success? <==> n < TWO_63 && j + n <= |d| && j + n < TWO_63
    ensures ReadBytes(d, i).Success? ==> ReadBytes(d, i).value == (d[j..j + n], j + n)
    ensures ReadBytes(d, i) == Failure(InvalidLength) <==> n >= TWO_63 || j + n >= TWO_63
  {
  }

  function ReadNumber(d: seq<Byte>, i: nat, m: nat): (r: Result<(int, nat), Error>)
    requires Width(m)
    ensures r.Success? ==> -(m / 2) <= r.value.0 < m / 2 && i < r.value.1 <= |d|
  {
    match ReadAt(d, i, m)
    case Failure(e) => Failure(e)
    case Success((x, j)) => Success((Signed(x, m), j))
  }

  // ---------- unknown fields ----------

  /** One element of what is skipped: where it ends, possibly past the data, and the depth of open groups. */
  function SkipElement(d: seq<Byte>, i: nat, depth: nat): (r: Result<(nat, nat), Error>)
    ensures r.Success? ==> i < r.value.0 < TWO_63
  {
    match ReadAt(d, i, TWO_64)
    case Failure(e) => Failure(e)
    case Success((wire, j)) =>
      match wire % 8
      case 0 => (match ReadAt(d, j, TWO_64)
                 case Failure(e) => Failure(e)
                 case Success((_, k)) => Indexed(k, depth))
      case 1 => Indexed(j + 8, depth)
      case 2 => (match ReadAt(d, j, TWO_64)
                 case Failure(e) => Failure(e)
                 case Success((n, k)) =>
                   if Signed(n, TWO_64) < 0 then Failure(InvalidLength) else Indexed(k + Signed(n, TWO_64), depth))
      case 3 => Indexed(j, depth + 1)
      case 4 => if depth == 0 then Failure(UnexpectedEndOfGroup) else Indexed(j, depth - 1)
      case 5 => Indexed(j + 4, depth)
      case _ => Failure(IllegalWireType)
  }

  function Indexed(i: nat, depth: nat): Result<(nat, nat), Error> {
    if i >= TWO_63 then Failure(InvalidLength) else Success((i, depth))
  }

  function Skip(d: seq<Byte>, i: nat, depth: nat): (r: Result<nat, Error>)
    ensures r.Success? ==> i < r.value < TWO_63
    decreases |d| - i
  {
    if i >= |d| then Failure(UnexpectedEOF)
    else
      match SkipElement(d, i, depth)
      case Failure(e) => Failure(e)
      case Success((j, depth')) => if depth' == 0 then Success(j) else Skip(d, j, depth')
  }

  method SkipGenerated(d: seq<Byte>) returns (r: Result<nat, Error>)
    ensures r == Skip(d, 0, 0)
  {
    var i: nat, depth: nat := 0, 0;
    while i < |d|
      invariant Skip(d, 0, 0) == Skip(d, i, depth)
      decreases |d| - i
    {
      match SkipElement(d, i, depth)
      case Failure(e) => return Failure(e);
      case Success((j, depth')) =>
        i, depth := j, depth';
        if depth == 0 {
          return Success(i);
        }
    }
    return Failure(UnexpectedEOF);
  }

  function SkipField(d: seq<Byte>, i: nat): (r: Result<nat, Error>)
    requires i <= |d|
    ensures r.Success? ==> i < r.value <= |d|
  {
    match Skip(d[i..], 0, 0)
    case Failure(e) => Failure(e)
    case Success(n) =>
      if i + n >= TWO_63 then Failure(InvalidLength)
      else if i + n > |d| then Failure(UnexpectedEOF)
      else Success(i + n)
  }

  // ---------- a request ----------

  /** One round of the loop: the message after the field and where the next one starts. */
  function RequestField(d: seq<Byte>, i: nat, m: Request): (r: Result<(Request, nat), Error>)
    ensures r.Success? ==> i < r.value.1 <= |d|
  {
    match ReadTag(d, i)
    case Failure(e) => Failure(e)
    case Success((field, wireType, j)) =>
      if field == 1 then
        if wireType != 2 then Failure(WrongWireType)
        else match ReadBytes(d, j)
             case Failure(e) => Failure(e)
             case Success((s, k)) => Success((m.(flowControl := s), k))
      else if field == 2 then
        if wireType != 0 then Failure(WrongWireType)
        else match ReadNumber(d, j, TWO_32)
             case Failure(e) => Failure(e)
             case Success((x, k)) => Success((m.(tokens := x), k))
      else
        match SkipField(d, i)
        case Failure(e) => Failure(e)
        case Success(k) => Success((m, k))
  }

  function DecodeRequest(d: seq<Byte>, i: nat, m: Request): Result<Request, Error>
    decreases |d| - i
  {
    if i >= |d| then Success(m)
    else
      match RequestField(d, i, m)
      case Failure(e) => Failure(e)
      case Success((m', j)) => DecodeRequest(d, j, m')
  }

  method UnmarshalRequest(d: seq<Byte>, m: Request) returns (r: Result<Request, Error>)
    ensures r == DecodeRequest(d, 0, m)
  {
    var i: nat, msg := 0, m;
    while i < |d|
      invariant i <= |d| && DecodeRequest(d, 0, m) == DecodeRequest(d, i, msg)
      decreases |d| - i
    {
      match RequestField(d, i, msg)
      case Failure(e) => return Failure(e);
      case Success((msg', j)) => i, msg := j, msg';
    }
    return Success(msg);
  }

  // ---------- the acquire message ----------

  function SpecField(d: seq<Byte>, i: nat, m: Spec): (r: Result<(Spec, nat), Error>)
    ensures r.Success? ==> i < r.value.1 <= |d|
  {
    match ReadTag(d, i)
    case Failure(e) => Failure(e)
    case Success((field, wireType, j)) =>
      if field == 1 then
        if wireType != 2 then Failure(WrongWireType)
        else match ReadBytes(d, j)
             case Failure(e) => Failure(e)
             case Success((s, k)) => Success((m.(instance := s), k))
      else if field == 2 then
        if wireType != 2 then Failure(WrongWireType)
        else match ReadBytes(d, j)
             case Failure(e) => Failure(e)
             case Success((s, k)) =>
               match DecodeRequest(s, 0, EMPTY_REQUEST)
               case Failure(e) => Failure(e)
               case Success(request) => Success((m.(requests := m.requests + [request]), k))
      else if field == 3 then
        if wireType != 0 then Failure(WrongWireType)
        else match ReadNumber(d, j, TWO_64)
             case Failure(e) => Failure(e)
             case Success((x, k)) => Success((m.(requestID := x), k))
      else
        match SkipField(d, i)
        case Failure(e) => Failure(e)
        case Success(k) => Success((m, k))
  }

  function DecodeSpec(d: seq<Byte>, i: nat, m: Spec): Result<Spec, Error>
    decreases |d| - i
  {
    if i >= |d| then Success(m)
    else
      match SpecField(d, i, m)
      case Failure(e) => Failure(e)
      case Success((m', j)) => DecodeSpec(d, j, m')
  }

  method Unmarshal(d: seq<Byte>, m: Spec) returns (r: Result<Spec, Error>)
    ensures r == DecodeSpec(d, 0, m)
  {
    var i: nat, msg := 0, m;
    while i < |d|
      invariant i <= |d| && DecodeSpec(d, 0, m) == DecodeSpec(d, i, msg)
      decreases |d| - i
    {
      match SpecField(d, i, msg)
      case Failure(e) => return Failure(e);
      case Success((msg', j)) => i, msg := j, msg';
    }
    return Success(msg);
  }

  // ---------- what was written is read back ----------

  lemma TagRead(d: seq<Byte>, i: nat, tag: Byte, rest: seq<Byte>)
    requires 8 <= tag < 128 && tag % 8 != 4 && At(d, i, [tag] + rest)
    ensures ReadTag(d, i) == Success((tag / 8, tag % 8, i + 1)) && At(d, i + 1, rest)
  {
    AtSplit(d, i, [tag], rest);
    assert Encode(tag) == [tag];
    ReadWhole(d, i, tag);
  }

  lemma BytesAfterLength(d: seq<Byte>, i: nat, j: nat, s: seq<Byte>)
    requires ReadAt(d, i, TWO_64) == Success((|s|, j)) && At(d, j, s) && |d| < TWO_63
    ensures ReadBytes(d, i) == Success((s, j + |s|))
  {
  }

  lemma BytesRead(d: seq<Byte>, i: nat, s: seq<Byte>)
    requires At(d, i, Encode(|s|) + s) && |d| < TWO_63
    ensures ReadBytes(d, i) == Success((s, i + |Encode(|s|)| + |s|))
  {
    AtSplit(d, i, Encode(|s|), s);
    ReadWhole(d, i, |s|);
    BytesAfterLength(d, i, i + |Encode(|s|)|, s);
  }

  lemma NumberRead(d: seq<Byte>, i: nat, x: Int64, m: nat)
    requires Width(m) && -(m / 2) <= x < m / 2 && At(d, i, Encode(Unsigned(x)))
    ensures ReadNumber(d, i, m) == Success((x, i + |Encode(Unsigned(x))|))
  {
    ReadWritten(d, i, m, Unsigned(x));
    if m == TWO_32 {
      SignedUnsigned32(x);
    } else {
      assert Unsigned(x) % TWO_64 == Unsigned(x);
    }
  }

  lemma BytesFieldRead(d: seq<Byte>, i: nat, tag: Byte, s: seq<Byte>)
    requires 8 <= tag < 128 && tag % 8 != 4 && |d| < TWO_63 && At(d, i, BytesField(tag, s))
    ensures ReadTag(d, i) == Success((tag / 8, tag % 8, i + 1))
    ensures ReadBytes(d, i + 1) == Success((s, i + |BytesField(tag, s)|))
  {
    var content := Encode(|s|) + s;
    assert BytesField(tag, s) == [tag] + content;
    TagRead(d, i, tag, content);
    BytesRead(d, i + 1, s);
  }

  lemma NumberFieldRead(d: seq<Byte>, i: nat, tag: Byte, x: Int64, m: nat)
    requires 8 <= tag < 128 && tag % 8 != 4 && Width(m) && -(m / 2) <= x < m / 2 && At(d, i, NumberField(tag, x))
    ensures ReadTag(d, i) == Success((tag / 8, tag % 8, i + 1))
    ensures ReadNumber(d, i + 1, m) == Success((x, i + |NumberField(tag, x)|))
  {
    TagRead(d, i, tag, Encode(Unsigned(x)));
    NumberRead(d, i + 1, x, m);
  }

  lemma FirstFieldRead(d: seq<Byte>, i: nat, m: Request)
    requires At(d, 0, BytesField(0x0a, m.flowControl)) && i == |BytesField(0x0a, m.flowControl)| && |d| < TWO_63
    ensures DecodeRequest(d, 0, EMPTY_REQUEST) == DecodeRequest(d, i, Request(m.flowControl, 0))
  {
    BytesFieldRead(d, 0, 0x0a, m.flowControl);
    assert RequestField(d, 0, EMPTY_REQUEST) == Success((Request(m.flowControl, 0), i));
  }

  lemma SecondFieldRead(d: seq<Byte>, i: nat, m: Request)
    requires At(d, i, NumberField(0x10, m.tokens)) && i + |NumberField(0x10, m.tokens)| == |d|
    ensures DecodeRequest(d, i, Request(m.flowControl, 0)) == Success(m)
  {
    NumberFieldRead(d, i, 0x10, m.tokens, TWO_32);
    assert RequestField(d, i, Request(m.flowControl, 0)) == Success((m, |d|));
  }

  lemma RequestRoundTrip(m: Request)
    requires |RequestBytes(m)| < TWO_63
    ensures DecodeRequest(RequestBytes(m), 0, EMPTY_REQUEST) == Success(m)
  {
    var d, first := RequestBytes(m), BytesField(0x0a, m.flowControl);
    ThreeParts(first, NumberField(0x10, m.tokens), [], d);
    FirstFieldRead(d, |first|, m);
    SecondFieldRead(d, |first|, m);
  }

  lemma OneField(d: seq<Byte>, i: nat, m: Spec, j: nat, m': Spec)
    requires i < |d| && SpecField(d, i, m) == Success((m', j))
    ensures DecodeSpec(d, i, m) == DecodeSpec(d, j, m')
  {
  }

  lemma ElementStep(d: seq<Byte>, i: nat, j: nat, next: nat, m: Spec, s: seq<Byte>, request: Request)
    requires ReadTag(d, i) == Success((2, 2, j)) && ReadBytes(d, j) == Success((s, next))
    requires DecodeRequest(s, 0, EMPTY_REQUEST) == Success(request)
    ensures SpecField(d, i, m) == Success((m.(requests := m.requests + [request]), next))
  {
  }

  /** Reading one element of the repeated field appends the request that was written. */
  lemma ElementRead(d: seq<Byte>, i: nat, m: Spec, s: seq<Byte>, request: Request, next: nat, m': Spec)
    requires At(d, i, BytesField(0x12, s)) && |d| < TWO_63 && DecodeRequest(s, 0, EMPTY_REQUEST) == Success(request)
    requires next == i + |BytesField(0x12, s)| && m' == m.(requests := m.requests + [request])
    ensures DecodeSpec(d, i, m) == DecodeSpec(d, next, m')
  {
    BytesFieldRead(d, i, 0x12, s);
    ElementStep(d, i, i + 1, next, m, s, request);
    OneField(d, i, m, next, m');
  }

  lemma RequestRead(d: seq<Byte>, i: nat, m: Spec, request: Request, next: nat, m': Spec)
    requires At(d, i, BytesField(0x12, RequestBytes(request))) && |d| < TWO_63
    requires next == i + |BytesField(0x12, RequestBytes(request))| && m' == m.(requests := m.requests + [request])
    ensures DecodeSpec(d, i, m) == DecodeSpec(d, next, m')
  {
    RequestRoundTrip(request);
    ElementRead(d, i, m, RequestBytes(request), request, next, m');
  }

  lemma InstanceRead(d: seq<Byte>, instance: seq<Byte>, next: nat)
    requires At(d, 0, BytesField(0x0a, instance)) && |d| < TWO_63 && next == |BytesField(0x0a, instance)|
    ensures DecodeSpec(d, 0, EMPTY_SPEC) == DecodeSpec(d, next, Spec(instance, [], 0))
  {
    BytesFieldRead(d, 0, 0x0a, instance);
    OneField(d, 0, EMPTY_SPEC, next, Spec(instance, [], 0));
  }

  lemma RequestsHead(ms: seq<Request>, first: seq<Byte>)
    requires ms != [] && first == BytesField(0x12, RequestBytes(ms[0]))
    ensures RequestsBytes(ms) == first + RequestsBytes(ms[1..])
  {
  }

  /** Any number of them appends all, in order. */
  lemma {:induction false} RequestsRead(d: seq<Byte>, i: nat, m: Spec, ms: seq<Request>, end: nat, m': Spec)
    requires At(d, i, RequestsBytes(ms)) && |d| < TWO_63
    requires end == i + |RequestsBytes(ms)| && m' == m.(requests := m.requests + ms)
    ensures DecodeSpec(d, i, m) == DecodeSpec(d, end, m')
    decreases |ms|
  {
    if ms == [] {
      assert m.requests + ms == m.requests;
    } else {
      var first, one := BytesField(0x12, RequestBytes(ms[0])), m.(requests := m.requests + [ms[0]]);
      RequestsHead(ms, first);
      AtSplit(d, i, first, RequestsBytes(ms[1..]));
      assert one.requests + ms[1..] == m.requests + ms;
      RequestsRead(d, i + |first|, one, ms[1..], end, m');
      RequestRead(d, i, m, ms[0], i + |first|, one);
    }
  }

  lemma LastFieldRead(d: seq<Byte>, i: nat, m: Spec)
    requires At(d, i, NumberField(0x18, m.requestID)) && i + |NumberField(0x18, m.requestID)| == |d|
    ensures DecodeSpec(d, i, m.(requestID := 0)) == Success(m)
  {
    NumberFieldRead(d, i, 0x18, m.requestID, TWO_64);
    assert SpecField(d, i, m.(requestID := 0)) == Success((m, |d|));
  }

  lemma ThreeParts<T>(a: seq<T>, b: seq<T>, c: seq<T>, d: seq<T>)
    requires d == a + (b + c)
    ensures At(d, 0, a) && At(d, |a|, b) && At(d, |a| + |b|, c) && |d| == |a| + |b| + |c|
  {
    assert d[0..|d|] == d;
    AtSplit(d, 0, a, b + c);
    AtSplit(d, |a|, b, c);
  }

  lemma SpecRead(d: seq<Byte>, a: nat, b: nat, m: Spec)
    requires At(d, 0, BytesField(0x0a, m.instance)) && a == |BytesField(0x0a, m.instance)|
    requires At(d, a, RequestsBytes(m.requests)) && b == a + |RequestsBytes(m.requests)|
    requires At(d, b, NumberField(0x18, m.requestID)) && b + |NumberField(0x18, m.requestID)| == |d| < TWO_63
    ensures DecodeSpec(d, 0, EMPTY_SPEC) == Success(m)
  {
    var named := Spec(m.instance, [], 0);
    InstanceRead(d, m.instance, a);
    assert named.requests + m.requests == m.requests;
    RequestsRead(d, a, named, m.requests, b, m.(requestID := 0));
    LastFieldRead(d, b, m);
  }

  /** Unmarshalling into an empty message returns the message that was marshalled. */
  lemma SpecRoundTrip(m: Spec)
    requires |SpecBytes(m)| < TWO_63
    ensures DecodeSpec(SpecBytes(m), 0, EMPTY_SPEC) == Success(m)
  {
    var first, requests := BytesField(0x0a, m.instance), RequestsBytes(m.requests);
    ThreeParts(first, requests, NumberField(0x18, m.requestID), SpecBytes(m));
    SpecRead(SpecBytes(m), |first|, |first| + |requests|, m);
  }

  /** The two methods of the generated code undo each other. */
  method MarshalThenUnmarshal(m: Spec) returns (r: Result<Spec, Error>)
    requires |SpecBytes(m)| < TWO_63
    ensures r == Success(m)
  {
    var bytes := Marshal(m);
    r := Unmarshal(bytes, EMPTY_SPEC);
    SpecRoundTrip(m);
  }
}
