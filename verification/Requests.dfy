/** Reading a client's JSON-RPC message and writing it out for bitcoind. */
module Requests {
  import opened Options
  import opened Rpc

  /** The keys a request has a meaning for, and any other. */
  datatype Key = VersionKey | IdKey | MethodKey | ParamsKey | OtherKey(name: string)

  /** A member of a JSON object as written: `plain` if its key has no escape, and
      `readable` if its value can be made into a JSON value. One that cannot, such
      as a number out of range, can still be skipped. */
  datatype Member = Member(key: Key, plain: bool, readable: bool, value: Json)

  /** An element of a batch as written. Positions are readable values; an array
      with any other is a scalar here, refused like one. */
  datatype Element = Members(members: seq<Member>) | Positions(values: seq<Json>) | Scalar(value: Json)

  datatype Document = Top(members: seq<Member>) | List(elements: seq<Element>) | Other(value: Json)

  datatype Message = Single(req: Request) | Batched(reqs: seq<Request>)

  // ----- the readers of the four members -----

  /** An optional member reads null as nothing. */
  function ReadOptional(v: Json): Option<Json> {
    if v == Null then None else Some(v)
  }

  function ReadMethod(v: Json): Option<string> {
    if v.Str? then Some(v.s) else None
  }

  function ReadParams(v: Json): Option<Params> {
    match v
    case Arr(items) => Some(Array(items))
    case Obj(fields) => Some(Object(fields))
    case _ => None
  }

  // ----- a request on its own: the hand-written loop -----

  /** The locals of the loop. */
  datatype Seen = Seen(jsonrpc: Option<Json>, id: Option<Json>, methodName: Option<string>, params: Option<Params>)

  const NOTHING_SEEN := Seen(None, None, None, None)

  /** One member read, or nothing if it cannot be. A key is borrowed from the
      text, which an escaped key does not allow. Every value is read, also under a
      key without a meaning. The later of two members wins. */
  function ReadMember(seen: Seen, m: Member): Option<Seen> {
    if !m.plain || !m.readable then None
    else if m.key == VersionKey then Some(seen.(jsonrpc := ReadOptional(m.value)))
    else if m.key == IdKey then Some(seen.(id := Some(m.value)))
    else if m.key == MethodKey then
      if m.value != Null && ReadMethod(m.value).None? then None else Some(seen.(methodName := ReadMethod(m.value)))
    else if m.key == ParamsKey then
      if m.value != Null && ReadParams(m.value).None? then None else Some(seen.(params := ReadParams(m.value)))
    else Some(seen)
  }

  function ReadMembers(members: seq<Member>): Option<Seen> {
    if members == [] then Some(NOTHING_SEEN) else
      var seen := ReadMembers(members[..|members| - 1]);
      if seen.None? then None else ReadMember(seen.value, members[|members| - 1])
  }

  function Finish(seen: Option<Seen>): Option<Request> {
    if seen.None? || seen.value.methodName.None? || seen.value.params.None? then None
    else Some(Request(seen.value.jsonrpc, seen.value.id, seen.value.methodName.value, seen.value.params.value))
  }

  method VisitMap(members: seq<Member>) returns (r: Option<Request>)
    ensures r == Finish(ReadMembers(members))
  {
    var jsonrpc: Option<Json> := None;
    var id: Option<Json> := None;
    var methodName: Option<string> := None;
    var params: Option<Params> := None;
    for k := 0 to |members|
      invariant ReadMembers(members[..k]) == Some(Seen(jsonrpc, id, methodName, params))
    {
      assert members[..k + 1][..k] == members[..k];
      var m := members[k];
      if !m.plain || !m.readable {
        ReadFails(members, k + 1);
        return None;
      }
      if m.key == VersionKey {
        jsonrpc := ReadOptional(m.value);
      } else if m.key == IdKey {
        id := Some(m.value);
      } else if m.key == MethodKey {
        if m.value != Null && ReadMethod(m.value).None? {
          ReadFails(members, k + 1);
          return None;
        }
        methodName := ReadMethod(m.value);
      } else if m.key == ParamsKey {
        if m.value != Null && ReadParams(m.value).None? {
          ReadFails(members, k + 1);
          return None;
        }
        params := ReadParams(m.value);
      }
    }
    assert members[..|members|] == members;
    if methodName.None? || params.None? {
      return None;
    }
    return Some(Request(jsonrpc, id, methodName.value, params.value));
  }

  lemma {:induction false} ReadFails(members: seq<Member>, k: nat)
    requires k <= |members| && ReadMembers(members[..k]).None?
    ensures ReadMembers(members).None?
    decreases |members| - k
  {
    if k == |members| {
      assert members[..k] == members;
    } else {
      assert members[..k + 1][..k] == members[..k];
      ReadFails(members, k + 1);
    }
  }

  // ----- a request in a batch: the derived reader -----

  /** How often `key` is written. */
  function Count(members: seq<Member>, key: Key): nat {
    if members == [] then 0
    else (if members[|members| - 1].key == key then 1 else 0) + Count(members[..|members| - 1], key)
  }

  /** The value last written for `key`. */
  function Value(members: seq<Member>, key: Key): Option<Json> {
    if members == [] then None
    else if members[|members| - 1].key == key then Some(members[|members| - 1].value)
    else Value(members[..|members| - 1], key)
  }

  /** The fields of a request from the values present, each read at most once. */
  function FromFields(jsonrpc: Option<Json>, id: Option<Json>, methodName: Option<Json>, params: Option<Json>)
    : Option<Request>
  {
    if methodName.None? || params.None? then None
    else if ReadMethod(methodName.value).None? || ReadParams(params.value).None? then None
    else Some(Request(if jsonrpc.Some? then ReadOptional(jsonrpc.value) else None, id,
                      ReadMethod(methodName.value).value, ReadParams(params.value).value))
  }

  predicate RepeatsField(members: seq<Member>) {
    Count(members, VersionKey) > 1 || Count(members, IdKey) > 1 ||
    Count(members, MethodKey) > 1 || Count(members, ParamsKey) > 1
  }

  /** Whether the value of a field cannot be read. Other members are skipped unread. */
  predicate UnreadableField(members: seq<Member>) {
    exists k :: 0 <= k < |members| && !members[k].key.OtherKey? && !members[k].readable
  }

  function Derived(members: seq<Member>): Option<Request> {
    if RepeatsField(members) || UnreadableField(members) then None
    else FromFields(Value(members, VersionKey), Value(members, IdKey),
                    Value(members, MethodKey), Value(members, ParamsKey))
  }

  /** An array is read by position; all four positions are needed, since the
      last two have no default, and no fifth one is allowed. */
  function DerivedPositions(values: seq<Json>): Option<Request> {
    if |values| != 4 then None
    else FromFields(Some(values[0]), Some(values[1]), Some(values[2]), Some(values[3]))
  }

  function ReadElement(e: Element): Option<Request> {
    match e
    case Members(members) => Derived(members)
    case Positions(values) => DerivedPositions(values)
    case Scalar(_) => None
  }

  function ReadElements(elements: seq<Element>): Option<seq<Request>> {
    if elements == [] then Some([]) else
      var init, last := ReadElements(elements[..|elements| - 1]), ReadElement(elements[|elements| - 1]);
      if init.None? || last.None? then None else Some(init.value + [last.value])
  }

  method VisitSeq(elements: seq<Element>) returns (r: Option<seq<Request>>)
    ensures r == ReadElements(elements)
  {
    var reqs: seq<Request> := [];
    for k := 0 to |elements|
      invariant ReadElements(elements[..k]) == Some(reqs)
    {
      assert elements[..k + 1][..k] == elements[..k];
      var req := ReadElement(elements[k]);
      if req.None? {
        ElementFails(elements, k + 1);
        return None;
      }
      reqs := reqs + [req.value];
    }
    assert elements[..|elements|] == elements;
    return Some(reqs);
  }

  lemma {:induction false} ElementFails(elements: seq<Element>, k: nat)
    requires k <= |elements| && ReadElements(elements[..k]).None?
    ensures ReadElements(elements).None?
    decreases |elements| - k
  {
    if k == |elements| {
      assert elements[..k] == elements;
    } else {
      assert elements[..k + 1][..k] == elements[..k];
      ElementFails(elements, k + 1);
    }
  }

  /** What the deserializer makes of a message. */
  function Parse(d: Document): Option<Message> {
    match d
    case Top(members) =>
      var r := Finish(ReadMembers(members));
      if r.None? then None else Some(Single(r.value))
    case List(elements) =>
      var r := ReadElements(elements);
      if r.None? then None else Some(Batched(r.value))
    case Other(_) => None
  }

  // ----- printing -----

  function ParamsJson(p: Params): Json {
    match p
    case Array(values) => Arr(values)
    case Object(named) => Obj(named)
  }

  function OptionalMember(key: Key, v: Option<Json>): seq<Member> {
    if v.Some? then [Member(key, true, true, v.value)] else []
  }

  function PrintRequest(r: Request): seq<Member> {
    OptionalMember(VersionKey, r.jsonrpc) + OptionalMember(IdKey, r.id) +
    [Member(MethodKey, true, true, Str(r.methodName)), Member(ParamsKey, true, true, ParamsJson(r.params))]
  }

  function PrintRequests(rs: seq<Request>): seq<Element> {
    if rs == [] then [] else PrintRequests(rs[..|rs| - 1]) + [Members(PrintRequest(rs[|rs| - 1]))]
  }

  function Print(m: Message): Document {
    match m
    case Single(r) => Top(PrintRequest(r))
    case Batched(rs) => List(PrintRequests(rs))
  }

  // ----- the two readers agree -----

  /** No field is written twice, no key with an escape, and no value is unreadable. */
  ghost predicate Ordinary(members: seq<Member>) {
    !RepeatsField(members) && forall k :: 0 <= k < |members| ==> members[k].plain && members[k].readable
  }

  lemma Snoc(members: seq<Member>, m: Member, key: Key)
    ensures Value(members + [m], key) == if m.key == key then Some(m.value) else Value(members, key)
    ensures Count(members + [m], key) == Count(members, key) + if m.key == key then 1 else 0
  {
    assert (members + [m])[..|members|] == members;
  }

  lemma {:induction false} ValueAbsent(members: seq<Member>, key: Key)
    ensures Value(members, key).None? <==> Count(members, key) == 0
  {
    if members != [] {
      ValueAbsent(members[..|members| - 1], key);
    }
  }

  /** What the loop has seen, in terms of the values written. */
  function SeenOf(members: seq<Member>): Seen {
    var v, m, p := Value(members, VersionKey), Value(members, MethodKey), Value(members, ParamsKey);
    Seen(if v.Some? then ReadOptional(v.value) else None, Value(members, IdKey),
         if m.Some? then ReadMethod(m.value) else None, if p.Some? then ReadParams(p.value) else None)
  }

  /** A method or params value that stops the loop. */
  predicate Stops(members: seq<Member>, key: Key, readable: bool) {
    Value(members, key).Some? && Value(members, key).value != Null && !readable
  }

  lemma {:induction false} LoopSees(members: seq<Member>)
    requires Ordinary(members)
    ensures ReadMembers(members) ==
            if Stops(members, MethodKey, SeenOf(members).methodName.Some?) ||
               Stops(members, ParamsKey, SeenOf(members).params.Some?)
            then None else Some(SeenOf(members))
  {
    if members != [] {
      var init := members[..|members| - 1];
      ValueAbsent(init, MethodKey);
      ValueAbsent(init, ParamsKey);
      LoopSees(init);
    }
  }

  /** An ordinary request is read the same way alone and in a batch. */
  lemma OrdinaryReadersAgree(members: seq<Member>)
    requires Ordinary(members)
    ensures Finish(ReadMembers(members)) == Derived(members)
  {
    LoopSees(members);
  }

  /** An object that either reader accepts is read the same way by both exactly
      when it is ordinary. */
  lemma ReadersAgreeIff(members: seq<Member>)
    ensures Finish(ReadMembers(members)).Some? || Derived(members).Some? ==>
              (Finish(ReadMembers(members)) == Derived(members) <==> Ordinary(members))
  {
    if Ordinary(members) {
      OrdinaryReadersAgree(members);
    } else if k :| 0 <= k < |members| && (!members[k].plain || !members[k].readable) {
      assert members[..k + 1][..k] == members[..k] && members[..k + 1][k] == members[k];
      ReadFails(members, k + 1);
    }
  }

  /** A repeated field is accepted alone and refused in a batch. */
  lemma RepeatedFieldTellsReadersApart(a: Json, b: Json)
    ensures var members := [Member(IdKey, true, true, a), Member(IdKey, true, true, b),
                            Member(MethodKey, true, true, Str("m")), Member(ParamsKey, true, true, Arr([]))];
            Finish(ReadMembers(members)) == Some(Request(None, Some(b), "m", Array([]))) && Derived(members).None?
  {
    var m1, m2 := Member(IdKey, true, true, a), Member(IdKey, true, true, b);
    var m3, m4 := Member(MethodKey, true, true, Str("m")), Member(ParamsKey, true, true, Arr([]));
    assert [m1, m2, m3, m4][..3] == [m1, m2, m3] && [m1, m2, m3][..2] == [m1, m2];
    assert [m1, m2][..1] == [m1] && [m1][..0] == [];
    assert ReadMembers([m1]) == Some(NOTHING_SEEN.(id := Some(a)));
    assert ReadMembers([m1, m2]) == Some(NOTHING_SEEN.(id := Some(b)));
    assert ReadMembers([m1, m2, m3]) == Some(NOTHING_SEEN.(id := Some(b), methodName := Some("m")));
    assert Count([m1], IdKey) == 1 && Count([m1, m2], IdKey) == 2 && Count([m1, m2, m3], IdKey) == 2;
  }

  lemma OneOther(m1: Member)
    requires m1.key.OtherKey? && (!m1.plain || !m1.readable)
    ensures var members := [m1, Member(MethodKey, true, true, Str("m")), Member(ParamsKey, true, true, Arr([]))];
            Finish(ReadMembers(members)).None? && Derived(members) == Some(Request(None, None, "m", Array([])))
  {
    var m2, m3 := Member(MethodKey, true, true, Str("m")), Member(ParamsKey, true, true, Arr([]));
    assert [m1, m2, m3] == [] + [m1] + [m2] + [m3] && [m1, m2, m3][..1] == [] + [m1];
    ReadFails([m1, m2, m3], 1);
    forall k: Key
      ensures Value([m1, m2, m3], k) ==
              if k == ParamsKey then Some(Arr([]))
              else if k == MethodKey then Some(Str("m"))
              else if k == m1.key then Some(m1.value) else None
      ensures Count([m1, m2, m3], k) <= 1
    {
      Snoc([], m1, k);
      Snoc([] + [m1], m2, k);
      Snoc([] + [m1] + [m2], m3, k);
    }
  }

  /** An escaped key is refused alone and accepted in a batch. */
  lemma EscapedKeyTellsReadersApart(name: string, v: Json)
    ensures var members := [Member(OtherKey(name), false, true, v),
                            Member(MethodKey, true, true, Str("m")), Member(ParamsKey, true, true, Arr([]))];
            Finish(ReadMembers(members)).None? && Derived(members) == Some(Request(None, None, "m", Array([])))
  {
    OneOther(Member(OtherKey(name), false, true, v));
  }

  /** So is a value under an unknown key that can be skipped but not read. */
  lemma UnreadableValueTellsReadersApart(name: string, v: Json)
    ensures var members := [Member(OtherKey(name), true, false, v),
                            Member(MethodKey, true, true, Str("m")), Member(ParamsKey, true, true, Arr([]))];
            Finish(ReadMembers(members)).None? && Derived(members) == Some(Request(None, None, "m", Array([])))
  {
    OneOther(Member(OtherKey(name), true, false, v));
  }

  // ----- printing and reading back -----

  /** A version written as null is read back as no version. */
  predicate Printable(r: Request) {
    r.jsonrpc != Some(Null)
  }

  predicate PrintableMessage(m: Message) {
    match m
    case Single(r) => Printable(r)
    case Batched(rs) => forall k :: 0 <= k < |rs| ==> Printable(rs[k])
  }

  lemma SnocOptional(members: seq<Member>, name: Key, v: Option<Json>, key: Key)
    ensures var ms := members + OptionalMember(name, v);
            && Value(ms, key) == (if v.Some? && name == key then v else Value(members, key))
            && Count(ms, key) == Count(members, key) + if v.Some? && name == key then 1 else 0
  {
    if v.Some? {
      Snoc(members, Member(name, true, true, v.value), key);
    } else {
      assert members + [] == members;
    }
  }

  function Written(r: Request, key: Key): Option<Json> {
    match key
    case VersionKey => r.jsonrpc
    case IdKey => r.id
    case MethodKey => Some(Str(r.methodName))
    case ParamsKey => Some(ParamsJson(r.params))
    case OtherKey(_) => None
  }

  lemma PrintedOptionals(r: Request, key: Key)
    ensures var ms := OptionalMember(VersionKey, r.jsonrpc) + OptionalMember(IdKey, r.id);
            && Value(ms, key) == (if key.VersionKey? || key.IdKey? then Written(r, key) else None)
            && Count(ms, key) <= (if key.VersionKey? || key.IdKey? then 1 else 0)
  {
    var a := OptionalMember(VersionKey, r.jsonrpc);
    assert [] + a == a;
    SnocOptional([], VersionKey, r.jsonrpc, key);
    SnocOptional(a, IdKey, r.id, key);
  }

  lemma SnocTwo(members: seq<Member>, m: Member, p: Member, key: Key)
    requires m.key != p.key
    ensures var ms := members + [m, p];
            && Value(ms, key) == (if p.key == key then Some(p.value)
                                  else if m.key == key then Some(m.value) else Value(members, key))
            && Count(ms, key) == Count(members, key) + if p.key == key || m.key == key then 1 else 0
  {
    assert members + [m, p] == members + [m] + [p];
    Snoc(members, m, key);
    Snoc(members + [m], p, key);
  }

  lemma PrintedValue(r: Request, key: Key)
    ensures Value(PrintRequest(r), key) == Written(r, key) && Count(PrintRequest(r), key) <= 1
  {
    PrintedOptionals(r, key);
    SnocTwo(OptionalMember(VersionKey, r.jsonrpc) + OptionalMember(IdKey, r.id),
            Member(MethodKey, true, true, Str(r.methodName)), Member(ParamsKey, true, true, ParamsJson(r.params)), key);
  }

  lemma PrintedValues(r: Request)
    ensures var ms := PrintRequest(r);
            && Ordinary(ms) && Value(ms, VersionKey) == r.jsonrpc && Value(ms, IdKey) == r.id
            && Value(ms, MethodKey) == Some(Str(r.methodName)) && Value(ms, ParamsKey) == Some(ParamsJson(r.params))
  {
    PrintedValue(r, VersionKey);
    PrintedValue(r, IdKey);
    PrintedValue(r, MethodKey);
    PrintedValue(r, ParamsKey);
  }

  lemma PrintedDerives(r: Request)
    ensures Derived(PrintRequest(r)).Some? && (Derived(PrintRequest(r)) == Some(r) <==> Printable(r))
  {
    PrintedValues(r);
  }

  lemma ReadSnoc(es: seq<Element>, e: Element)
    requires ReadElements(es).Some? && ReadElement(e).Some?
    ensures ReadElements(es + [e]) == Some(ReadElements(es).value + [ReadElement(e).value])
  {
    assert (es + [e])[..|es|] == es;
  }

  /** A printed batch reads back request by request. */
  lemma {:induction false} PrintedBatch(rs: seq<Request>)
    ensures var back := ReadElements(PrintRequests(rs));
            back.Some? && |back.value| == |rs| &&
            forall k :: 0 <= k < |rs| ==> (back.value[k] == rs[k] <==> Printable(rs[k]))
  {
    if rs != [] {
      var init, last := rs[..|rs| - 1], rs[|rs| - 1];
      PrintedBatch(init);
      PrintedDerives(last);
      ReadSnoc(PrintRequests(init), Members(PrintRequest(last)));
    }
  }

  lemma SingleRoundTripIff(r: Request)
    ensures Finish(ReadMembers(PrintRequest(r))) == Some(r) <==> Printable(r)
  {
    PrintedValues(r);
    OrdinaryReadersAgree(PrintRequest(r));
    PrintedDerives(r);
  }

  /** A message prints to something that reads back as itself exactly when no
      request in it has a null for a version. */
  lemma RoundTripIff(m: Message)
    ensures Parse(Print(m)) == Some(m) <==> PrintableMessage(m)
  {
    match m
    case Single(r) => SingleRoundTripIff(r);
    case Batched(rs) =>
      PrintedBatch(rs);
      var back := ReadElements(PrintRequests(rs)).value;
      if PrintableMessage(m) {
        assert back == rs;
      } else {
        var k :| 0 <= k < |rs| && !Printable(rs[k]);
        assert back[k] != rs[k];
      }
  }

  lemma {:induction false} SeenIsPrintable(members: seq<Member>)
    ensures ReadMembers(members).Some? ==> ReadMembers(members).value.jsonrpc != Some(Null)
  {
    if members != [] {
      SeenIsPrintable(members[..|members| - 1]);
    }
  }

  lemma ElementIsPrintable(e: Element)
    ensures ReadElement(e).Some? ==> Printable(ReadElement(e).value)
  {
  }

  lemma {:induction false} ElementsArePrintable(elements: seq<Element>)
    ensures var r := ReadElements(elements);
            r.Some? ==> forall k :: 0 <= k < |r.value| ==> Printable(r.value[k])
  {
    if elements != [] {
      ElementsArePrintable(elements[..|elements| - 1]);
      ElementIsPrintable(elements[|elements| - 1]);
    }
  }

  lemma ParsedIsPrintable(d: Document)
    requires Parse(d).Some?
    ensures PrintableMessage(Parse(d).value)
  {
    match d
    case Top(members) =>
      SeenIsPrintable(members);
      assert Parse(d).value == Single(Finish(ReadMembers(members)).value);
    case List(elements) =>
      ElementsArePrintable(elements);
      assert Parse(d).value == Batched(ReadElements(elements).value);
  }

  /** Whatever was read reads back as itself after printing, so what reaches
      bitcoind is the request the client sent: a null id stays apart from a
      missing one. */
  lemma ParsedRoundTrips(d: Document)
    ensures Parse(d).Some? ==> Parse(Print(Parse(d).value)) == Parse(d)
  {
    if Parse(d).Some? {
      ParsedIsPrintable(d);
      RoundTripIff(Parse(d).value);
    }
  }

  /** A request written as an array means the same as its members in order. */
  lemma PositionsAreMembers(version: Json, id: Json, name: Json, params: Json)
    ensures DerivedPositions([version, id, name, params]) ==
            Derived([Member(VersionKey, true, true, version), Member(IdKey, true, true, id),
                     Member(MethodKey, true, true, name), Member(ParamsKey, true, true, params)])
  {
    var m1, m2 := Member(VersionKey, true, true, version), Member(IdKey, true, true, id);
    var m3, m4 := Member(MethodKey, true, true, name), Member(ParamsKey, true, true, params);
    assert [m1, m2, m3, m4] == [] + [m1] + [m2] + [m3] + [m4];
    forall k: Key
      ensures Count([m1, m2, m3, m4], k) <= 1
      ensures Value([m1, m2, m3, m4], k) ==
              match k
              case VersionKey => Some(version)
              case IdKey => Some(id)
              case MethodKey => Some(name)
              case ParamsKey => Some(params)
              case OtherKey(_) => None
    {
      Snoc([], m1, k);
      Snoc([] + [m1], m2, k);
      Snoc([] + [m1] + [m2], m3, k);
      Snoc([] + [m1] + [m2] + [m3], m4, k);
    }
  }

  /** What the four members of a request mean: a null version is none and a null id
      is an id, the method is a string, and the parameters an array or an object. */
  function Meaning(version: Json, id: Json, name: Json, params: Json): Option<Request> {
    var known := if version == Null then None else Some(version);
    match (name, params)
    case (Str(s), Arr(items)) => Some(Request(known, Some(id), s, Array(items)))
    case (Str(s), Obj(fields)) => Some(Request(known, Some(id), s, Object(fields)))
    case _ => None
  }

  /** Both readers give it, and both refuse what has no meaning, a null method and
      null parameters among it. */
  lemma FourMembersMean(version: Json, id: Json, name: Json, params: Json)
    ensures var ms := [Member(VersionKey, true, true, version), Member(IdKey, true, true, id),
                       Member(MethodKey, true, true, name), Member(ParamsKey, true, true, params)];
            Derived(ms) == Meaning(version, id, name, params) && Finish(ReadMembers(ms)) == Derived(ms)
  {
    var ms := [Member(VersionKey, true, true, version), Member(IdKey, true, true, id),
               Member(MethodKey, true, true, name), Member(ParamsKey, true, true, params)];
    PositionsAreMembers(version, id, name, params);
    FourAreOrdinary(version, id, name, params);
    OrdinaryReadersAgree(ms);
  }

  lemma FourAreOrdinary(version: Json, id: Json, name: Json, params: Json)
    ensures Ordinary([Member(VersionKey, true, true, version), Member(IdKey, true, true, id),
                      Member(MethodKey, true, true, name), Member(ParamsKey, true, true, params)])
  {
    var a, b := Member(VersionKey, true, true, version), Member(IdKey, true, true, id);
    var c, d := Member(MethodKey, true, true, name), Member(ParamsKey, true, true, params);
    assert [a, b, c, d] == [] + [a] + [b] + [c] + [d];
    forall k: Key ensures Count([a, b, c, d], k) <= 1 {
      Snoc([], a, k);
      Snoc([] + [a], b, k);
      Snoc([] + [a] + [b], c, k);
      Snoc([] + [a] + [b] + [c], d, k);
    }
  }

  /** Without a method or without parameters there is no request. */
  lemma MissingFieldRefused(members: seq<Member>, key: Key)
    requires key == MethodKey || key == ParamsKey
    requires forall m :: m in members ==> m.key != key
    ensures Finish(ReadMembers(members)).None? && Derived(members).None?
  {
    NotSeen(members, key);
  }

  lemma {:induction false} NotSeen(members: seq<Member>, key: Key)
    requires forall m :: m in members ==> m.key != key
    ensures Value(members, key).None?
    ensures var seen := ReadMembers(members);
            seen.Some? ==>
              && (key == MethodKey ==> seen.value.methodName.None?)
              && (key == ParamsKey ==> seen.value.params.None?)
  {
    if members != [] {
      NotSeen(members[..|members| - 1], key);
    }
  }

  /** Only objects and arrays are messages, an array whatever its elements are and an
      object as one request. */
  lemma ParseMeans(d: Document)
    ensures match d
            case Top(members) => Parse(d).Some? ==> Parse(d).value.Single?
            case List(elements) =>
              (Parse(d).Some? <==> forall k :: 0 <= k < |elements| ==> ReadElement(elements[k]).Some?) &&
              (Parse(d).Some? ==>
                 && Parse(d).value.Batched? && |Parse(d).value.reqs| == |elements|
                 && forall k :: 0 <= k < |elements| ==> ReadElement(elements[k]) == Some(Parse(d).value.reqs[k]))
            case Other(_) => Parse(d).None?
  {
    if d.List? {
      ElementsInOrder(d.elements);
    }
  }

  lemma {:induction false} ElementsInOrder(elements: seq<Element>)
    ensures var r := ReadElements(elements);
            && (r.Some? <==> forall k :: 0 <= k < |elements| ==> ReadElement(elements[k]).Some?)
            && (r.Some? ==>
                  && |r.value| == |elements|
                  && forall k :: 0 <= k < |elements| ==> ReadElement(elements[k]) == Some(r.value[k]))
  {
    if elements != [] {
      ElementsInOrder(elements[..|elements| - 1]);
    }
  }
}
