/** Fields of a later version: what the decoder skips, and that a message is the merger of its parts. */
module UnknownFields {
  import opened Wrappers
  import opened Numbers
  import opened Varint
  import opened AcquireCodec
  import opened AcquireDecoder

  // ---------- where a field ends, by the nesting of its groups ----------

  /** The end of a field's content that is not a group, when the data hold all of it. */
  function ContentEnd(d: seq<Byte>, i: nat, wireType: nat): (r: Option<nat>)
    requires i <= |d|
    ensures r.Some? ==> i <= r.value <= |d|
  {
    if wireType == 0 then
      match ReadAt(d, i, TWO_64) case Failure(_) => None case Success((_, j)) => Some(j)
    else if wireType == 2 then
      match ReadBytes(d, i) case Failure(_) => None case Success((_, j)) => Some(j)
    else if wireType == 1 then if i + 8 <= |d| then Some(i + 8) else None
    else if wireType == 5 then if i + 4 <= |d| then Some(i + 4) else None
    else None
  }

  /** A field is a tag and its content, or a tag, a group and the tag that closes it. */
  function FieldEnd(d: seq<Byte>, i: nat): (r: Option<nat>)
    ensures r.Some? ==> i < r.value <= |d|
    decreases |d| - i, 0
  {
    match ReadAt(d, i, TWO_64)
    case Failure(_) => None
    case Success((wire, j)) => if wire % 8 == 3 then GroupEnd(d, j) else ContentEnd(d, j, wire % 8)
  }

  /** A group is any number of fields up to a closing tag. */
  function GroupEnd(d: seq<Byte>, i: nat): (r: Option<nat>)
    ensures r.Some? ==> i < r.value <= |d|
    decreases |d| - i, 1
  {
    match ReadAt(d, i, TWO_64)
    case Failure(_) => None
    case Success((wire, j)) =>
      if wire % 8 == 4 then Some(j)
      else match FieldEnd(d, i) case None => None case Some(k) => GroupEnd(d, k)
  }

  // ---------- the specification's grammar ----------

  /** The field number of a tag, and whether the specification allows it. */
  function Number(wire: nat): nat { wire / 8 }

  predicate Legal(wire: nat) { 1 <= Number(wire) < 0x2000_0000 }

  /** As above, but numbers are legal and a group ends with the number it began with. */
  function StrictFieldEnd(d: seq<Byte>, i: nat): (r: Option<nat>)
    ensures r.Some? ==> i < r.value <= |d|
    decreases |d| - i, 0
  {
    match ReadAt(d, i, TWO_64)
    case Failure(_) => None
    case Success((wire, j)) =>
      if !Legal(wire) then None
      else if wire % 8 == 3 then StrictGroupEnd(d, j, Number(wire))
      else ContentEnd(d, j, wire % 8)
  }

  function StrictGroupEnd(d: seq<Byte>, i: nat, number: nat): (r: Option<nat>)
    ensures r.Some? ==> i < r.value <= |d|
    decreases |d| - i, 1
  {
    match ReadAt(d, i, TWO_64)
    case Failure(_) => None
    case Success((wire, j)) =>
      if wire % 8 == 4 then if Number(wire) == number then Some(j) else None
      else match StrictFieldEnd(d, i) case None => None case Some(k) => StrictGroupEnd(d, k, number)
  }

  /** The tags of a field, and of all fields nested in it, are the specification's. */
  predicate TagsFit(d: seq<Byte>, i: nat)
    requires FieldEnd(d, i).Some?
    decreases |d| - i, 0
  {
    var (wire, j) := ReadAt(d, i, TWO_64).value;
    Legal(wire) && (wire % 8 == 3 ==> GroupTagsFit(d, j, Number(wire)))
  }

  predicate GroupTagsFit(d: seq<Byte>, i: nat, number: nat)
    requires GroupEnd(d, i).Some?
    decreases |d| - i, 1
  {
    var (wire, _) := ReadAt(d, i, TWO_64).value;
    if wire % 8 == 4 then Number(wire) == number
    else TagsFit(d, i) && GroupTagsFit(d, FieldEnd(d, i).value, number)
  }

  /** The two grammars differ exactly by the tags. */
  lemma {:induction false} StrictFieldIff(d: seq<Byte>, i: nat)
    ensures StrictFieldEnd(d, i) == if FieldEnd(d, i).Some? && TagsFit(d, i) then FieldEnd(d, i) else None
    decreases |d| - i, 0
  {
    match ReadAt(d, i, TWO_64)
    case Failure(_) =>
    case Success((wire, j)) =>
      if wire % 8 == 3 { StrictGroupIff(d, j, Number(wire)); }
  }

  lemma {:induction false} StrictGroupIff(d: seq<Byte>, i: nat, number: nat)
    ensures StrictGroupEnd(d, i, number)
            == if GroupEnd(d, i).Some? && GroupTagsFit(d, i, number) then GroupEnd(d, i) else None
    decreases |d| - i, 1
  {
    match ReadAt(d, i, TWO_64)
    case Failure(_) =>
    case Success((wire, j)) =>
      if wire % 8 != 4 {
        StrictFieldIff(d, i);
        var end := FieldEnd(d, i);
        if end.Some? { StrictGroupIff(d, end.value, number); }
      }
  }

  /** The end of so many groups that are open, the innermost first. */
  function GroupsEnd(d: seq<Byte>, i: nat, depth: nat): Option<nat>
    decreases depth
  {
    if depth == 0 then Some(i)
    else match GroupEnd(d, i) case None => None case Some(k) => GroupsEnd(d, k, depth - 1)
  }

  // ---------- skipping follows the grammar ----------

  /** The loop's index after an element that is not part of a group's brackets. */
  lemma ContentSkipped(d: seq<Byte>, i: nat, wire: nat, j: nat, depth: nat)
    requires |d| < TWO_63 && ReadAt(d, i, TWO_64) == Success((wire, j)) && wire % 8 != 3 && wire % 8 != 4
    ensures match ContentEnd(d, j, wire % 8)
            case Some(k) => SkipElement(d, i, depth) == Success((k, depth))
            case None => SkipElement(d, i, depth).Success? ==>
                           SkipElement(d, i, depth).value.0 > |d| && SkipElement(d, i, depth).value.1 == depth
  {
  }

  /** A closing tag ends the innermost group. */
  lemma ClosingTag(d: seq<Byte>, i: nat, wire: nat, j: nat, depth: nat)
    requires |d| < TWO_63 && ReadAt(d, i, TWO_64) == Success((wire, j)) && wire % 8 == 4 && depth > 0
    ensures GroupsEnd(d, i, depth) == GroupsEnd(d, j, depth - 1)
    ensures Skip(d, i, depth) == if depth == 1 then Success(j) else Skip(d, j, depth - 1)
  {
    assert SkipElement(d, i, depth) == Success((j, depth - 1));
  }

  /** An opening tag adds a group. */
  lemma OpeningTag(d: seq<Byte>, i: nat, wire: nat, j: nat, depth: nat)
    requires |d| < TWO_63 && ReadAt(d, i, TWO_64) == Success((wire, j)) && wire % 8 == 3 && depth > 0
    ensures GroupsEnd(d, i, depth) == GroupsEnd(d, j, depth + 1)
    ensures Skip(d, i, depth) == Skip(d, j, depth + 1)
  {
    assert SkipElement(d, i, depth) == Success((j, depth + 1));
    assert FieldEnd(d, i) == GroupEnd(d, j);
  }

  /** Any other element leaves the open groups open. */
  lemma InnerField(d: seq<Byte>, i: nat, wire: nat, j: nat, depth: nat)
    requires |d| < TWO_63 && ReadAt(d, i, TWO_64) == Success((wire, j)) && wire % 8 != 3 && wire % 8 != 4 && depth > 0
    ensures match ContentEnd(d, j, wire % 8)
            case Some(k) => GroupsEnd(d, i, depth) == GroupsEnd(d, k, depth) && Skip(d, i, depth) == Skip(d, k, depth)
            case None => GroupsEnd(d, i, depth).None? && Skip(d, i, depth).Failure?
  {
    ContentSkipped(d, i, wire, j, depth);
    assert FieldEnd(d, i) == ContentEnd(d, j, wire % 8);
  }

  /** Inside groups the loop stops where the outermost of them is closed, and fails if it is not. */
  lemma {:induction false} SkipClosesGroups(d: seq<Byte>, i: nat, depth: nat)
    requires |d| < TWO_63 && depth > 0
    ensures match GroupsEnd(d, i, depth)
            case Some(e) => Skip(d, i, depth) == Success(e)
            case None => Skip(d, i, depth).Failure?
    decreases |d| - i
  {
    match ReadAt(d, i, TWO_64)
    case Failure(_) =>
      assert GroupEnd(d, i).None? && (i < |d| ==> SkipElement(d, i, depth).Failure?);
    case Success((wire, j)) =>
      if wire % 8 == 4 {
        ClosingTag(d, i, wire, j, depth);
        if depth == 1 {
          assert GroupsEnd(d, j, 0) == Some(j);
        } else {
          SkipClosesGroups(d, j, depth - 1);
        }
      } else if wire % 8 == 3 {
        OpeningTag(d, i, wire, j, depth);
        SkipClosesGroups(d, j, depth + 1);
      } else {
        InnerField(d, i, wire, j, depth);
        var end := ContentEnd(d, j, wire % 8);
        if end.Some? { SkipClosesGroups(d, end.value, depth); }
      }
  }

  /** Skipping from the start of the data ends where the first field ends, or past the data. */
  lemma SkipEndsField(d: seq<Byte>)
    requires |d| < TWO_63
    ensures match FieldEnd(d, 0)
            case Some(e) => Skip(d, 0, 0) == Success(e)
            case None => Skip(d, 0, 0).Success? ==> Skip(d, 0, 0).value > |d|
  {
    match ReadAt(d, 0, TWO_64)
    case Failure(_) =>
    case Success((wire, j)) =>
      if wire % 8 == 3 {
        SkipClosesGroups(d, j, 1);
        assert GroupsEnd(d, j, 1) == GroupEnd(d, j);
      } else if wire % 8 != 4 {
        ContentSkipped(d, 0, wire, j, 0);
      }
  }

  // ---------- reading in the rest of the data is reading in the data, with indices moved ----------

  lemma {:induction false} GroupsInRest(d: seq<Byte>, a: nat, start: nat, i: nat)
    requires a <= start <= i && a <= |d|
    ensures match Groups(d, start, i)
            case Failure(e) => Groups(d[a..], start - a, i - a) == Failure(e)
            case Success((v, j)) => Groups(d[a..], start - a, i - a) == Success((v, j - a))
    decreases start + 10 - i
  {
    if i - start < 10 && i < |d| {
      GroupsInRest(d, a, start, i + 1);
    }
  }

  lemma ReadInRest(d: seq<Byte>, a: nat, i: nat, m: nat)
    requires a <= i && a <= |d| && Width(m)
    ensures match ReadAt(d, i, m)
            case Failure(e) => ReadAt(d[a..], i - a, m) == Failure(e)
            case Success((v, j)) => ReadAt(d[a..], i - a, m) == Success((v, j - a))
  {
    GroupsInRest(d, a, i, i);
  }

  lemma TagInRest(d: seq<Byte>, a: nat, i: nat)
    requires a <= i && a <= |d|
    ensures match ReadTag(d, i)
            case Failure(e) => ReadTag(d[a..], i - a) == Failure(e)
            case Success((field, wireType, j)) => ReadTag(d[a..], i - a) == Success((field, wireType, j - a))
  {
    ReadInRest(d, a, i, TWO_64);
  }

  lemma NumberInRest(d: seq<Byte>, a: nat, i: nat, m: nat)
    requires a <= i && a <= |d| && Width(m)
    ensures match ReadNumber(d, i, m)
            case Failure(e) => ReadNumber(d[a..], i - a, m) == Failure(e)
            case Success((x, j)) => ReadNumber(d[a..], i - a, m) == Success((x, j - a))
  {
    ReadInRest(d, a, i, m);
  }

  /** A length that is too large may be refused for another reason. */
  lemma BytesInRest(d: seq<Byte>, a: nat, i: nat)
    requires a <= i && a <= |d| < TWO_63
    ensures match ReadBytes(d, i)
            case Failure(_) => ReadBytes(d[a..], i - a).Failure?
            case Success((s, j)) => ReadBytes(d[a..], i - a) == Success((s, j - a))
  {
    ReadInRest(d, a, i, TWO_64);
    match ReadBytes(d, i)
    case Failure(_) =>
    case Success((s, j)) => assert d[a..][j - |s| - a..j - a] == d[j - |s|..j];
  }

  /** A place, counted from a. */
  function From(place: Option<nat>, a: nat): Option<nat>
    requires place.Some? ==> a <= place.value
  {
    match place case None => None case Some(k) => Some(k - a)
  }

  lemma ContentInRest(d: seq<Byte>, a: nat, i: nat, wireType: nat)
    requires a <= i <= |d| < TWO_63
    ensures ContentEnd(d[a..], i - a, wireType) == From(ContentEnd(d, i, wireType), a)
  {
    ReadInRest(d, a, i, TWO_64);
    BytesInRest(d, a, i);
  }

  lemma {:induction false} FieldInRest(d: seq<Byte>, a: nat, i: nat)
    requires a <= i && a <= |d| < TWO_63
    ensures FieldEnd(d[a..], i - a) == From(FieldEnd(d, i), a)
    decreases |d| - i, 0
  {
    ReadInRest(d, a, i, TWO_64);
    match ReadAt(d, i, TWO_64)
    case Failure(_) =>
    case Success((wire, j)) =>
      if wire % 8 == 3 {
        GroupInRest(d, a, j);
      } else {
        ContentInRest(d, a, j, wire % 8);
      }
  }

  lemma {:induction false} GroupInRest(d: seq<Byte>, a: nat, i: nat)
    requires a <= i && a <= |d| < TWO_63
    ensures GroupEnd(d[a..], i - a) == From(GroupEnd(d, i), a)
    decreases |d| - i, 1
  {
    ReadInRest(d, a, i, TWO_64);
    match ReadAt(d, i, TWO_64)
    case Failure(_) =>
    case Success((wire, j)) =>
      if wire % 8 != 4 {
        FieldInRest(d, a, i);
        var end := FieldEnd(d, i);
        if end.Some? { GroupInRest(d, a, end.value); }
      }
  }

  // ---------- unknown fields ----------

  /** The decoder skips exactly the fields whose groups are closed, to exactly their ends. */
  lemma SkipFieldIsFieldEnd(d: seq<Byte>, i: nat)
    requires i <= |d| < TWO_63
    ensures match FieldEnd(d, i)
            case Some(e) => SkipField(d, i) == Success(e)
            case None => SkipField(d, i).Failure?
  {
    FieldInRest(d, i, i);
    SkipEndsField(d[i..]);
  }

  /**
   * So it skips every field of the specification, and besides them exactly the fields with a tag that does not
   * fit: a number out of range, or a group that ends with another number than it began with.
   */
  lemma SkippedBesidesStrict(d: seq<Byte>, i: nat)
    requires i <= |d| < TWO_63
    ensures StrictFieldEnd(d, i).Some? ==> SkipField(d, i) == Success(StrictFieldEnd(d, i).value)
    ensures SkipField(d, i).Success? && StrictFieldEnd(d, i).None? <==> FieldEnd(d, i).Some? && !TagsFit(d, i)
  {
    SkipFieldIsFieldEnd(d, i);
    StrictFieldIff(d, i);
  }

  /** A group that begins as field 4 and ends as field 5 is skipped. */
  lemma MismatchedGroupIsSkipped(d: seq<Byte>)
    requires d == [0x23, 0x2c]
    ensures SkipField(d, 0) == Success(2) && StrictFieldEnd(d, 0).None?
  {
    assert ReadAt(d, 0, TWO_64) == Success((0x23, 1)) && ReadAt(d, 1, TWO_64) == Success((0x2c, 2));
    assert GroupEnd(d, 1) == Some(2) && FieldEnd(d, 0) == GroupEnd(d, 1);
    SkipFieldIsFieldEnd(d, 0);
  }

  /**
   * A field with a number the decoder does not know leaves the message as it is, whatever its wire type, and is
   * refused exactly when its content is cut short or its groups are not closed.
   */
  lemma UnknownFieldIsIgnored(d: seq<Byte>, i: nat, m: Spec)
    requires i <= |d| < TWO_63 && ReadTag(d, i).Success? && ReadTag(d, i).value.0 > 3
    ensures match FieldEnd(d, i)
            case Some(e) => SpecField(d, i, m) == Success((m, e))
            case None => SpecField(d, i, m).Failure?
  {
    SkipFieldIsFieldEnd(d, i);
  }

  lemma UnknownRequestFieldIsIgnored(d: seq<Byte>, i: nat, m: Request)
    requires i <= |d| < TWO_63 && ReadTag(d, i).Success? && ReadTag(d, i).value.0 > 2
    ensures match FieldEnd(d, i)
            case Some(e) => RequestField(d, i, m) == Success((m, e))
            case None => RequestField(d, i, m).Failure?
  {
    SkipFieldIsFieldEnd(d, i);
  }

  // ---------- what a prefix holds, the data hold ----------

  lemma {:induction false} GroupsInPrefix(d: seq<Byte>, b: nat, start: nat, i: nat)
    requires b <= |d| && start <= i && Groups(d[..b], start, i).Success?
    ensures Groups(d, start, i) == Groups(d[..b], start, i)
    decreases start + 10 - i
  {
    if d[i] >= 128 {
      GroupsInPrefix(d, b, start, i + 1);
    }
  }

  lemma ReadInPrefix(d: seq<Byte>, b: nat, i: nat, m: nat)
    requires b <= |d| && Width(m) && ReadAt(d[..b], i, m).Success?
    ensures ReadAt(d, i, m) == ReadAt(d[..b], i, m)
  {
    GroupsInPrefix(d, b, i, i);
  }

  lemma BytesInPrefix(d: seq<Byte>, b: nat, i: nat)
    requires b <= |d| && ReadBytes(d[..b], i).Success?
    ensures ReadBytes(d, i) == ReadBytes(d[..b], i)
  {
    ReadInPrefix(d, b, i, TWO_64);
    var (s, j) := ReadBytes(d[..b], i).value;
    assert d[..b][j - |s|..j] == d[j - |s|..j];
  }

  lemma ContentInPrefix(d: seq<Byte>, b: nat, i: nat, wireType: nat)
    requires i <= b <= |d| && ContentEnd(d[..b], i, wireType).Some?
    ensures ContentEnd(d, i, wireType) == ContentEnd(d[..b], i, wireType)
  {
    if wireType == 0 {
      ReadInPrefix(d, b, i, TWO_64);
    } else if wireType == 2 {
      BytesInPrefix(d, b, i);
    }
  }

  lemma {:induction false} FieldInPrefix(d: seq<Byte>, b: nat, i: nat)
    requires b <= |d| && FieldEnd(d[..b], i).Some?
    ensures FieldEnd(d, i) == FieldEnd(d[..b], i)
    decreases b - i, 0
  {
    ReadInPrefix(d, b, i, TWO_64);
    var (wire, j) := ReadAt(d, i, TWO_64).value;
    if wire % 8 == 3 {
      GroupInPrefix(d, b, j);
    } else {
      ContentInPrefix(d, b, j, wire % 8);
    }
  }

  lemma {:induction false} GroupInPrefix(d: seq<Byte>, b: nat, i: nat)
    requires b <= |d| && GroupEnd(d[..b], i).Some?
    ensures GroupEnd(d, i) == GroupEnd(d[..b], i)
    decreases b - i, 1
  {
    ReadInPrefix(d, b, i, TWO_64);
    var (wire, _) := ReadAt(d, i, TWO_64).value;
    if wire % 8 != 4 {
      FieldInPrefix(d, b, i);
      GroupInPrefix(d, b, FieldEnd(d, i).value);
    }
  }

  lemma SkippedInPrefix(d: seq<Byte>, b: nat, i: nat)
    requires i <= b <= |d| < TWO_63 && SkipField(d[..b], i).Success?
    ensures SkipField(d, i) == SkipField(d[..b], i)
  {
    SkipFieldIsFieldEnd(d[..b], i);
    FieldInPrefix(d, b, i);
    SkipFieldIsFieldEnd(d, i);
  }

  lemma SkippedInRest(d: seq<Byte>, a: nat, i: nat)
    requires a <= i <= |d| < TWO_63
    ensures match SkipField(d, i)
            case Failure(_) => SkipField(d[a..], i - a).Failure?
            case Success(j) => SkipField(d[a..], i - a) == Success(j - a)
  {
    SkipFieldIsFieldEnd(d, i);
    FieldInRest(d, a, i);
    SkipFieldIsFieldEnd(d[a..], i - a);
  }

  // ---------- a message is the merger of its parts ----------

  lemma SpecFieldInPrefix(d: seq<Byte>, b: nat, i: nat, m: Spec)
    requires i <= b <= |d| < TWO_63 && SpecField(d[..b], i, m).Success?
    ensures SpecField(d, i, m) == SpecField(d[..b], i, m)
  {
    ReadInPrefix(d, b, i, TWO_64);
    var (field, _, j) := ReadTag(d[..b], i).value;
    if field == 1 || field == 2 {
      BytesInPrefix(d, b, j);
    } else if field == 3 {
      ReadInPrefix(d, b, j, TWO_64);
    } else {
      SkippedInPrefix(d, b, i);
    }
  }

  /** Both fail, or both yield the same message, the first one a bytes further on. */
  predicate Moved(r: Result<(Spec, nat), Error>, r': Result<(Spec, nat), Error>, a: nat) {
    if r.Success? then r'.Success? && r'.value.0 == r.value.0 && r'.value.1 + a == r.value.1 else r'.Failure?
  }

  lemma BytesFieldInRest(d: seq<Byte>, a: nat, i: nat, m: Spec, field: int, wireType: nat, j: nat)
    requires a <= i <= |d| < TWO_63 && ReadTag(d, i) == Success((field, wireType, j)) && (field == 1 || field == 2)
    ensures Moved(SpecField(d, i, m), SpecField(d[a..], i - a, m), a)
  {
    TagInRest(d, a, i);
    BytesInRest(d, a, j);
  }

  lemma NumberFieldInRest(d: seq<Byte>, a: nat, i: nat, m: Spec, wireType: nat, j: nat)
    requires a <= i <= |d| < TWO_63 && ReadTag(d, i) == Success((3, wireType, j))
    ensures Moved(SpecField(d, i, m), SpecField(d[a..], i - a, m), a)
  {
    TagInRest(d, a, i);
    NumberInRest(d, a, j, TWO_64);
  }

  lemma SkippedFieldInRest(d: seq<Byte>, a: nat, i: nat, m: Spec, field: int, wireType: nat, j: nat)
    requires a <= i <= |d| < TWO_63 && ReadTag(d, i) == Success((field, wireType, j)) && field > 3
    ensures Moved(SpecField(d, i, m), SpecField(d[a..], i - a, m), a)
  {
    TagInRest(d, a, i);
    SkippedInRest(d, a, i);
  }

  lemma SpecFieldInRest(d: seq<Byte>, a: nat, i: nat, m: Spec)
    requires a <= i <= |d| < TWO_63
    ensures Moved(SpecField(d, i, m), SpecField(d[a..], i - a, m), a)
  {
    match ReadTag(d, i)
    case Failure(_) => TagInRest(d, a, i);
    case Success((field, wireType, j)) =>
      if field == 1 || field == 2 {
        BytesFieldInRest(d, a, i, m, field, wireType, j);
      } else if field == 3 {
        NumberFieldInRest(d, a, i, m, wireType, j);
      } else {
        assert field > 3;
        SkippedFieldInRest(d, a, i, m, field, wireType, j);
      }
  }

  /** Both fail, or both yield the same message. */
  predicate SameOutcome(r: Result<Spec, Error>, r': Result<Spec, Error>) {
    if r.Success? then r' == r else r'.Failure?
  }

  lemma {:induction false} DecodeInRest(d: seq<Byte>, a: nat, i: nat, m: Spec)
    requires a <= i <= |d| < TWO_63
    ensures SameOutcome(DecodeSpec(d, i, m), DecodeSpec(d[a..], i - a, m))
    decreases |d| - i
  {
    if i < |d| {
      SpecFieldInRest(d, a, i, m);
      match SpecField(d, i, m)
      case Failure(_) =>
      case Success((m', j)) =>
        OneField(d, i, m, j, m');
        OneField(d[a..], i - a, m, j - a, m');
        DecodeInRest(d, a, j, m');
    }
  }

  /** Data whose first part is a message of its own decode that part first. */
  lemma {:induction false} DecodePrefix(d: seq<Byte>, b: nat, i: nat, m: Spec)
    requires i <= b <= |d| < TWO_63 && DecodeSpec(d[..b], i, m).Success?
    ensures DecodeSpec(d, i, m) == DecodeSpec(d, b, DecodeSpec(d[..b], i, m).value)
    decreases b - i
  {
    if i < b {
      SpecFieldInPrefix(d, b, i, m);
      var (m', j) := SpecField(d, i, m).value;
      DecodePrefix(d, b, j, m');
    }
  }

  lemma TwoParts<T>(a: seq<T>, b: seq<T>)
    ensures (a + b)[..|a|] == a && (a + b)[|a|..] == b
  {
  }

  lemma PartsDecode(d: seq<Byte>, k: nat, m: Spec, m': Spec)
    requires k <= |d| < TWO_63 && DecodeSpec(d[..k], 0, m) == Success(m')
    ensures SameOutcome(DecodeSpec(d, 0, m), DecodeSpec(d[k..], 0, m'))
  {
    DecodePrefix(d, k, 0, m);
    DecodeInRest(d, k, k, m');
  }

  /** Decoding two messages in a row is decoding the second into the result of the first. */
  lemma PartsMerge(a: seq<Byte>, b: seq<Byte>, m: Spec)
    requires |a + b| < TWO_63 && DecodeSpec(a, 0, m).Success?
    ensures SameOutcome(DecodeSpec(a + b, 0, m), DecodeSpec(b, 0, DecodeSpec(a, 0, m).value))
  {
    TwoParts(a, b);
    PartsDecode(a + b, |a|, m, DecodeSpec(a, 0, m).value);
  }

  /** The bytes of one whole field that the decoder does not know. */
  predicate UnknownField(u: seq<Byte>) {
    ReadTag(u, 0).Success? && ReadTag(u, 0).value.0 > 3 && FieldEnd(u, 0) == Some(|u|)
  }

  lemma UnknownFieldDecodes(u: seq<Byte>, m: Spec)
    requires |u| < TWO_63 && UnknownField(u)
    ensures DecodeSpec(u, 0, m) == Success(m)
  {
    UnknownFieldIsIgnored(u, 0, m);
    assert DecodeSpec(u, |u|, m) == Success(m);
  }

  /** A field of a later version, anywhere between two fields of a message, makes no difference. */
  lemma LaterVersionIsRead(a: seq<Byte>, u: seq<Byte>, b: seq<Byte>, m: Spec)
    requires |a + u + b| < TWO_63 && DecodeSpec(a, 0, m).Success? && UnknownField(u)
    ensures SameOutcome(DecodeSpec(a + u + b, 0, m), DecodeSpec(a + b, 0, m))
  {
    var m' := DecodeSpec(a, 0, m).value;
    PartsMerge(a, b, m);
    PartsMerge(a, u, m);
    UnknownFieldDecodes(u, m');
    PartsMerge(a + u, b, m);
  }
}
