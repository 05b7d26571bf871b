/** The wire format of the acquire messages: sizing, backward marshalling and unmarshalling. */
module AcquireCodec {
  import opened Wrappers
  import opened Numbers
  import opened Varint

  const TWO_31: int := 0x8000_0000
  const TWO_63: int := 0x8000_0000_0000_0000

  type Int32 = x: int | -TWO_31 <= x < TWO_31
  type Int64 = x: int | -TWO_63 <= x < TWO_63

  /** Strings are their bytes. */
  datatype Request = Request(flowControl: seq<Byte>, tokens: Int32)
  datatype Spec = Spec(instance: seq<Byte>, requests: seq<Request>, requestID: Int64)

  const EMPTY_REQUEST := Request([], 0)
  const EMPTY_SPEC := Spec([], [], 0)

  /** Conversion of a signed integer to 64 unsigned bits: negative numbers are sign-extended. */
  function Unsigned(x: Int64): UInt64 {
    if x < 0 then x + TWO_64 else x
  }

  function Signed(x: nat, m: nat): int
    requires Width(m) && x < m
  {
    if x < m / 2 then x else x - m
  }

  lemma SignedUnsigned32(x: Int32)
    ensures Unsigned(x) % TWO_32 < TWO_32 && Signed(Unsigned(x) % TWO_32, TWO_32) == x
  {
  }

  // ---------- the format ----------

  function BytesField(tag: Byte, s: seq<Byte>): seq<Byte> { [tag] + Encode(|s|) + s }

  function NumberField(tag: Byte, x: Int64): seq<Byte> { [tag] + Encode(Unsigned(x)) }

  function RequestBytes(m: Request): seq<Byte> {
    BytesField(0x0a, m.flowControl) + NumberField(0x10, m.tokens)
  }

  function RequestsBytes(ms: seq<Request>): seq<Byte> {
    if ms == [] then [] else BytesField(0x12, RequestBytes(ms[0])) + RequestsBytes(ms[1..])
  }

  function SpecBytes(m: Spec): seq<Byte> {
    BytesField(0x0a, m.instance) + (RequestsBytes(m.requests) + NumberField(0x18, m.requestID))
  }

  /** The tag of a field: its number and its wire type, 0 for numbers and 2 for what has a length. */
  function Tag(number: nat, wireType: nat): nat { 8 * number + wireType }

  /** Flow control and tokens are fields 1 and 2 of a request. */
  lemma RequestTags(m: Request)
    ensures RequestBytes(m)[0] == Tag(1, 2)
    ensures RequestBytes(m)[|BytesField(0x0a, m.flowControl)|..] == [Tag(2, 0)] + Encode(Unsigned(m.tokens))
  {
  }

  /** Instance, requests and request id are fields 1, 2 and 3 of a message. */
  lemma SpecTags(m: Spec)
    ensures SpecBytes(m)[0] == Tag(1, 2)
    ensures m.requests != [] ==> SpecBytes(m)[|BytesField(0x0a, m.instance)|] == Tag(2, 2)
    ensures var n := |BytesField(0x0a, m.instance)| + |RequestsBytes(m.requests)|;
            SpecBytes(m)[n..] == [Tag(3, 0)] + Encode(Unsigned(m.requestID))
  {
    var a, b := BytesField(0x0a, m.instance), RequestsBytes(m.requests);
    assert SpecBytes(m) == a + b + NumberField(0x18, m.requestID);
    if m.requests != [] {
      assert b[0] == Tag(2, 2);
    }
  }

  // ---------- sizing ----------

  method RequestSize(m: Request) returns (n: nat)
    requires |RequestBytes(m)| < TWO_63
    ensures n == |RequestBytes(m)|
  {
    var l := SovGenerated(|m.flowControl|);
    n := 1 + |m.flowControl| + l;
    l := SovGenerated(Unsigned(m.tokens));
    n := n + 1 + l;
  }

  lemma RequestsFit(ms: seq<Request>, i: nat)
    requires i < |ms|
    ensures |BytesField(0x12, RequestBytes(ms[i]))| + |RequestsBytes(ms[i + 1..])| == |RequestsBytes(ms[i..])|
    ensures |RequestsBytes(ms[i..])| <= |RequestsBytes(ms)|
  {
    assert ms[i..][0] == ms[i] && ms[i..][1..] == ms[i + 1..];
    if i > 0 { RequestsFit(ms, i - 1); } else { assert ms[0..] == ms; }
  }

  method SpecSize(m: Spec) returns (n: nat)
    requires |SpecBytes(m)| < TWO_63
    ensures n == |SpecBytes(m)|
  {
    var l := SovGenerated(|m.instance|);
    n := 1 + |m.instance| + l;
    assert m.requests[0..] == m.requests;
    for i := 0 to |m.requests|
      invariant n + |RequestsBytes(m.requests[i..])| == |BytesField(0x0a, m.instance)| + |RequestsBytes(m.requests)|
    {
      RequestsFit(m.requests, i);
      var size := RequestSize(m.requests[i]);
      l := SovGenerated(size);
      n := n + 1 + size + l;
    }
    l := SovGenerated(Unsigned(m.requestID));
    n := n + 1 + l;
  }

  // ---------- marshalling, from the end of the buffer to its front ----------

  method PutNumber(data: array<Byte>, end: nat, tag: Byte, x: Int64) returns (i: nat)
    requires |NumberField(tag, x)| <= end <= data.Length
    modifies data
    ensures i == end - |NumberField(tag, x)|
    ensures data[i..end] == NumberField(tag, x)
    ensures forall j :: 0 <= j < i || end <= j < data.Length ==> data[j] == old(data[j])
  {
    i := EncodeVarint(data, end, Unsigned(x));
    ghost var code := data[i..end];
    i := i - 1;
    data[i] := tag;
    assert data[i + 1..end] == code;
  }

  method PutHeader(data: array<Byte>, end: nat, tag: Byte, length: nat) returns (i: nat)
    requires length < TWO_63 && 1 + |Encode(length)| <= end <= data.Length
    modifies data
    ensures i == end - 1 - |Encode(length)|
    ensures data[i..end] == [tag] + Encode(length)
    ensures forall j :: 0 <= j < i || end <= j < data.Length ==> data[j] == old(data[j])
  {
    i := EncodeVarint(data, end, length);
    ghost var code := data[i..end];
    i := i - 1;
    data[i] := tag;
    assert data[i + 1..end] == code;
  }

  method PutBytes(data: array<Byte>, end: nat, tag: Byte, s: seq<Byte>) returns (i: nat)
    requires |BytesField(tag, s)| <= end <= data.Length && |s| < TWO_63
    modifies data
    ensures i == end - |BytesField(tag, s)|
    ensures data[i..end] == BytesField(tag, s)
    ensures forall j :: 0 <= j < i || end <= j < data.Length ==> data[j] == old(data[j])
  {
    var start := end - |s|;
    forall k | start <= k < end { data[k] := s[k - start]; }
    assert data[start..end] == s;
    i := PutHeader(data, start, tag, |s|);
    assert data[start..end] == s;
    assert data[i..end] == data[i..start] + data[start..end];
  }

  /** Fills the buffer below end with the message and returns how many bytes that took. */
  method MarshalRequest(data: array<Byte>, end: nat, m: Request) returns (size: nat)
    requires |RequestBytes(m)| <= end <= data.Length && |RequestBytes(m)| < TWO_63
    modifies data
    ensures size == |RequestBytes(m)|
    ensures data[end - size..end] == RequestBytes(m)
    ensures forall j :: 0 <= j < end - size || end <= j < data.Length ==> data[j] == old(data[j])
  {
    var mid := PutNumber(data, end, 0x10, m.tokens);
    ghost var number := data[mid..end];
    var i := PutBytes(data, mid, 0x0a, m.flowControl);
    assert data[mid..end] == number;
    assert data[i..end] == data[i..mid] + data[mid..end];
    size := end - i;
  }

  /** One element of the repeated field. */
  method MarshalElement(data: array<Byte>, end: nat, m: Request) returns (i: nat)
    requires |BytesField(0x12, RequestBytes(m))| <= end <= data.Length && |RequestBytes(m)| < TWO_63
    modifies data
    ensures i == end - |BytesField(0x12, RequestBytes(m))|
    ensures data[i..end] == BytesField(0x12, RequestBytes(m))
    ensures forall j :: 0 <= j < i || end <= j < data.Length ==> data[j] == old(data[j])
  {
    var size := MarshalRequest(data, end, m);
    var start := end - size;
    ghost var own := data[start..end];
    i := PutHeader(data, start, 0x12, size);
    assert data[start..end] == own;
    assert data[i..end] == data[i..start] + data[start..end];
  }

  /** Puts the element before those that are written already. */
  method PrependElement(data: array<Byte>, i: nat, end: nat, m: Request, ghost later: seq<Byte>) returns (front: nat)
    requires |BytesField(0x12, RequestBytes(m))| <= i <= end <= data.Length && |RequestBytes(m)| < TWO_63
    requires data[i..end] == later
    modifies data
    ensures front == i - |BytesField(0x12, RequestBytes(m))|
    ensures data[front..end] == BytesField(0x12, RequestBytes(m)) + later
    ensures forall j :: 0 <= j < front || end <= j < data.Length ==> data[j] == old(data[j])
  {
    front := MarshalElement(data, i, m);
    assert data[i..end] == later;
    assert data[front..end] == data[front..i] + data[i..end];
  }

  method MarshalRequests(data: array<Byte>, end: nat, ms: seq<Request>) returns (i: nat)
    requires |RequestsBytes(ms)| <= end <= data.Length && |RequestsBytes(ms)| < TWO_63
    modifies data
    ensures i == end - |RequestsBytes(ms)|
    ensures data[i..end] == RequestsBytes(ms)
    ensures forall j :: 0 <= j < i || end <= j < data.Length ==> data[j] == old(data[j])
  {
    i := end;
    for k := |ms| downto 0
      invariant i == end - |RequestsBytes(ms[k..])| && |RequestsBytes(ms[k..])| <= |RequestsBytes(ms)|
      invariant data[i..end] == RequestsBytes(ms[k..])
      invariant forall j :: 0 <= j < i || end <= j < data.Length ==> data[j] == old(data[j])
    {
      RequestsFit(ms, k);
      NextRequest(ms, k);
      i := PrependElement(data, i, end, ms[k], RequestsBytes(ms[k + 1..]));
    }
    assert ms[0..] == ms;
  }

  lemma NextRequest(ms: seq<Request>, k: nat)
    requires k < |ms|
    ensures RequestsBytes(ms[k..]) == BytesField(0x12, RequestBytes(ms[k])) + RequestsBytes(ms[k + 1..])
  {
    assert ms[k..][0] == ms[k] && ms[k..][1..] == ms[k + 1..];
  }

  method MarshalSpec(data: array<Byte>, m: Spec) returns (size: nat)
    requires |SpecBytes(m)| <= data.Length && |SpecBytes(m)| < TWO_63
    modifies data
    ensures size == |SpecBytes(m)|
    ensures data[data.Length - size..] == SpecBytes(m)
  {
    var mid := MarshalTail(data, m);
    ghost var rest := data[mid..];
    var i := PutBytes(data, mid, 0x0a, m.instance);
    assert data[mid..] == rest;
    assert data[i..] == data[i..mid] + data[mid..];
    size := data.Length - i;
  }

  /** All but the first field. */
  method MarshalTail(data: array<Byte>, m: Spec) returns (i: nat)
    requires |SpecBytes(m)| <= data.Length && |SpecBytes(m)| < TWO_63
    modifies data
    ensures var tail := RequestsBytes(m.requests) + NumberField(0x18, m.requestID);
            i == data.Length - |tail| && data[i..] == tail
  {
    var mid := PutNumber(data, data.Length, 0x18, m.requestID);
    ghost var rest := data[mid..];
    assert rest == NumberField(0x18, m.requestID);
    i := MarshalRequests(data, mid, m.requests);
    assert data[mid..] == rest;
    assert data[i..] == data[i..mid] + data[mid..];
  }

  /** The message takes exactly the bytes its size function announces. */
  method Marshal(m: Spec) returns (bytes: seq<Byte>)
    requires |SpecBytes(m)| < TWO_63
    ensures bytes == SpecBytes(m)
  {
    var size := SpecSize(m);
    var data := new Byte[size];
    var n := MarshalSpec(data, m);
    bytes := data[..n];
  }
}
