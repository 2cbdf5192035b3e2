// The table of operator handlers, its dense cache for small type codes, and the dispatcher that
// consults both.

module Dispatch {
  import opened Values

  const UNSUPPORTED_TYPE := 0
  const CORE_OP_HANDLERS_SIZE: nat := 8
  const FIRST_DYNAMIC_TYPE_CODE := 1000

  datatype HandlerInfo = HandlerInfo(baseType: int, coercionTypes: seq<int>, handler: int)

  /** The entry of a table for a type code: the first one, as a plain scan finds it. */
  function Find(table: seq<HandlerInfo>, code: int): Option<HandlerInfo> {
    if table == [] then None
    else if table[0].baseType == code then Some(table[0])
    else Find(table[1..], code)
  }

  ghost predicate OnePerCode(table: seq<HandlerInfo>) {
    forall i, j :: 0 <= i < j < |table| ==> table[i].baseType != table[j].baseType
  }

  lemma {:induction false} FindAt(table: seq<HandlerInfo>, i: nat)
    requires i < |table| && OnePerCode(table)
    ensures Find(table, table[i].baseType) == Some(table[i])
  {
    if i > 0 { FindAt(table[1..], i - 1); }
  }

  lemma {:induction false} FindNone(table: seq<HandlerInfo>, code: int)
    ensures Find(table, code) == None <==> forall i :: 0 <= i < |table| ==> table[i].baseType != code
  {
    if table != [] {
      FindNone(table[1..], code);
      if Find(table, code) == None {
        forall i | 0 <= i < |table| ensures table[i].baseType != code {
          if i > 0 { assert table[1..][i - 1].baseType != code; }
        }
      }
    }
  }

  /** The table with e registered: in place of the entry for its code if there is one. */
  function Registered(table: seq<HandlerInfo>, e: HandlerInfo): seq<HandlerInfo> {
    if table == [] then [e]
    else if table[0].baseType == e.baseType then [e] + table[1..]
    else [table[0]] + Registered(table[1..], e)
  }

  lemma {:induction false} RegisteredFind(table: seq<HandlerInfo>, e: HandlerInfo, code: int)
    ensures Find(Registered(table, e), code) == if code == e.baseType then Some(e) else Find(table, code)
  {
    if table != [] { RegisteredFind(table[1..], e, code); }
  }

  lemma {:induction false} RegisteredAt(table: seq<HandlerInfo>, e: HandlerInfo, i: nat)
    requires i < |table| && table[i].baseType == e.baseType && forall j :: 0 <= j < i ==>
        table[j].baseType != e.baseType
    ensures Registered(table, e) == table[i := e]
  {
    if i > 0 {
      RegisteredAt(table[1..], e, i - 1);
      assert table[i := e] == [table[0]] + table[1..][i - 1 := e];
    }
  }

  lemma {:induction false} RegisteredLast(table: seq<HandlerInfo>, e: HandlerInfo)
    requires forall j :: 0 <= j < |table| ==> table[j].baseType != e.baseType
    ensures Registered(table, e) == table + [e]
  {
    if table != [] {
      RegisteredLast(table[1..], e);
      assert table + [e] == [table[0]] + (table[1..] + [e]);
    }
  }

  lemma {:induction false} RegisteredOnePerCode(table: seq<HandlerInfo>, e: HandlerInfo)
    requires OnePerCode(table)
    ensures OnePerCode(Registered(table, e))
    ensures forall x :: x in Registered(table, e) ==> x == e || x in table
  {
    if table != [] && table[0].baseType != e.baseType {
      RegisteredOnePerCode(table[1..], e);
      var r := Registered(table[1..], e);
      forall j | 0 <= j < |r| ensures r[j].baseType != table[0].baseType {
        assert r[j] in r;
      }
    }
  }

  // ----- What an operation on two values comes to -----

  /** The value itself, a call of one handler, or one of the three refusals. */
  datatype Route = Unchanged | Invoke(handler: int) | NoHandler | CoercionDisabled | NoCommonHandler

  /** Dispatch by plain scans of the table. */
  function Scan(table: seq<HandlerInfo>, aType: int, bType: int, coercing: bool, autoCoerc: bool): Route {
    Choose(Find(table, aType), Find(table, bType), aType, bType, coercing, autoCoerc)
  }

  function Choose(a: Option<HandlerInfo>, b: Option<HandlerInfo>, aType: int, bType: int, coercing: bool,
      autoCoerc: bool): Route {
    if aType == bType then
      if coercing then Unchanged else if a.None? then NoHandler else Invoke(a.value.handler)
    else if !autoCoerc then CoercionDisabled
    else if a.Some? && bType in a.value.coercionTypes then Invoke(a.value.handler)
    else if b.Some? && aType in b.value.coercionTypes then Invoke(b.value.handler)
    else NoCommonHandler
  }

  /** e is the entry of code, and lists the other type as one it coerces with. */
  predicate Lists(table: seq<HandlerInfo>, e: HandlerInfo, code: int, other: int) {
    e in table && e.baseType == code && other in e.coercionTypes
  }

  /** Operands of one type: a coercion leaves the value alone, and anything else goes to the type's own
      handler, whether or not different types may be combined; without an entry it is refused. */
  ghost predicate RoutesSame(table: seq<HandlerInfo>, code: int, coercing: bool, r: Route) {
    && (coercing ==> r == Unchanged)
    && (!coercing ==> forall e <- table :: e.baseType == code ==> r == Invoke(e.handler))
    && (r == NoHandler <==> !coercing && forall e <- table :: e.baseType != code)
  }

  /** Operands of different types: refused outright exactly when coercion is disabled; otherwise the left
      type's handler if it lists the right type, else the right type's if it lists the left, else refused. */
  ghost predicate RoutesMixed(table: seq<HandlerInfo>, aType: int, bType: int, autoCoerc: bool, r: Route) {
    && (r == CoercionDisabled <==> !autoCoerc)
    && (autoCoerc ==> forall e <- table :: Lists(table, e, aType, bType) ==> r == Invoke(e.handler))
    && (autoCoerc && (forall e <- table :: !Lists(table, e, aType, bType)) ==>
          forall e <- table :: Lists(table, e, bType, aType) ==> r == Invoke(e.handler))
    && (r == NoCommonHandler <==>
          autoCoerc && forall e <- table :: !Lists(table, e, aType, bType) && !Lists(table, e, bType, aType))
  }

  lemma FindIs(table: seq<HandlerInfo>, code: int)
    requires OnePerCode(table)
    ensures forall e <- table :: e.baseType == code ==> Find(table, code) == Some(e)
    ensures Find(table, code).Some? ==> Find(table, code).value in table && Find(table, code).value.baseType == code
  {
    forall e | e in table && e.baseType == code ensures Find(table, code) == Some(e) {
      var i :| 0 <= i < |table| && table[i] == e;
      FindAt(table, i);
    }
    FindNone(table, code);
    if Find(table, code).Some? {
      var i :| 0 <= i < |table| && table[i].baseType == code;
      FindAt(table, i);
    }
  }

  /** Which handler an operation reaches, told on the entries of the table. */
  lemma ScanRoutes(table: seq<HandlerInfo>, aType: int, bType: int, coercing: bool, autoCoerc: bool)
    requires OnePerCode(table)
    ensures aType == bType ==> RoutesSame(table, aType, coercing, Scan(table, aType, bType, coercing, autoCoerc))
    ensures aType != bType ==> RoutesMixed(table, aType, bType, autoCoerc,
        Scan(table, aType, bType, coercing, autoCoerc))
  {
    FindIs(table, aType);
    FindIs(table, bType);
  }

  /** A custom coder and the ID it was registered under. */
  datatype Typer = Typer(id: int, coder: int -> int)

  /** The code that the first coder to recognize t gives it. */
  function Coded(typers: seq<Typer>, t: int): int {
    if typers == [] then UNSUPPORTED_TYPE
    else if typers[0].coder(t) != UNSUPPORTED_TYPE then typers[0].coder(t)
    else Coded(typers[1..], t)
  }

  /** A coder that is added speaks only for what no earlier one recognizes. */
  lemma {:induction false} CodedLast(typers: seq<Typer>, last: Typer, t: int)
    ensures Coded(typers + [last], t) == if Coded(typers, t) != UNSUPPORTED_TYPE then Coded(typers,
        t) else last.coder(t)
  {
    if typers == [] {
      assert [last][1..] == [];
    } else {
      assert (typers + [last])[1..] == typers[1..] + [last];
      CodedLast(typers[1..], last, t);
    }
  }

  class Registry {
    /** Codes given by the core switch; UNSUPPORTED_TYPE for every other type. */
    const core: int -> int
    var extraTypers: seq<Typer>
    var opHandlers: seq<HandlerInfo>
    var coreOpHandlers: seq<Option<HandlerInfo>>
    var dynamicTypes: map<int, int>
    var nextDynamicCode: int

    constructor (core: int -> int)
      ensures Coherent() && Minted() && opHandlers == [] && dynamicTypes == map[] && extraTypers == [] &&
          this.core == core
    {
      this.core, extraTypers := core, [];
      opHandlers, coreOpHandlers := [], seq(CORE_OP_HANDLERS_SIZE, _ => None);
      dynamicTypes, nextDynamicCode := map[], FIRST_DYNAMIC_TYPE_CODE - 1;
    }

    /** At most one entry per code, and the dense array mirrors the table below its size. */
    ghost predicate Coherent()
      reads this
    {
      && OnePerCode(opHandlers) && |coreOpHandlers| == CORE_OP_HANDLERS_SIZE
      && forall c :: 0 <= c < CORE_OP_HANDLERS_SIZE ==> coreOpHandlers[c] == Find(opHandlers, c)
    }

    /** No code has been minted for two types, nor one that is small or still to come. */
    ghost predicate Minted()
      reads this
    {
      && nextDynamicCode >= FIRST_DYNAMIC_TYPE_CODE - 1
      && (forall t :: t in dynamicTypes ==> FIRST_DYNAMIC_TYPE_CODE <= dynamicTypes[t] <= nextDynamicCode)
      && (forall t, u :: t in dynamicTypes && u in dynamicTypes && t != u ==> dynamicTypes[t] != dynamicTypes[u])
    }

    /** The code of a type that the core switch or a custom coder knows. */
    function Recognized(t: int): int
      reads this
    {
      if core(t) != UNSUPPORTED_TYPE then core(t) else Coded(extraTypers, t)
    }

    function TypeCode(t: int): int
      reads this
    {
      if Recognized(t) != UNSUPPORTED_TYPE then Recognized(t)
      else if t in dynamicTypes then dynamicTypes[t]
      else UNSUPPORTED_TYPE
    }

    /** The code of t, minting one if nothing recognizes it yet. Other types keep theirs. */
    method ResolveOrAssignTypeCode(t: int) returns (code: int)
      requires Minted()
      modifies this`dynamicTypes, this`nextDynamicCode
      ensures Minted() && code == TypeCode(t) != UNSUPPORTED_TYPE
      ensures old(TypeCode(t)) != UNSUPPORTED_TYPE ==> code == old(TypeCode(t))
      ensures old(TypeCode(t)) == UNSUPPORTED_TYPE ==> code > old(nextDynamicCode)
      ensures forall u :: u != t ==> TypeCode(u) == old(TypeCode(u))
    {
      code := TypeCode(t);
      if code != UNSUPPORTED_TYPE { return; }
      nextDynamicCode := nextDynamicCode + 1;
      dynamicTypes := dynamicTypes[t := nextDynamicCode];
      code := nextDynamicCode;
    }

    /** Overwrite the entry for baseType in place, or append one, and keep the cache in step. */
    method RegisterOperationalHandler(baseType: int, coercionTypes: seq<int>, handler: int)
      requires Coherent() && baseType >= 0
      modifies this`opHandlers, this`coreOpHandlers
      ensures Coherent() && opHandlers == Registered(old(opHandlers), HandlerInfo(baseType, coercionTypes, handler))
    {
      var newEntry := HandlerInfo(baseType, coercionTypes, handler);
      RegisteredOnePerCode(opHandlers, newEntry);
      forall c ensures Find(Registered(opHandlers, newEntry), c) == if c ==
        baseType then Some(newEntry) else Find(opHandlers, c) {
        RegisteredFind(opHandlers, newEntry, c);
      }
      var overwrote := false;
      for i := 0 to |opHandlers|
        invariant opHandlers == old(opHandlers) && !overwrote
        invariant forall j :: 0 <= j < i ==> opHandlers[j].baseType != baseType
      {
        if opHandlers[i].baseType == baseType {
          RegisteredAt(opHandlers, newEntry, i);
          opHandlers := opHandlers[i := newEntry];
          overwrote := true;
          break;
        }
      }
      if !overwrote {
        RegisteredLast(opHandlers, newEntry);
        opHandlers := opHandlers + [newEntry];
      }
      if baseType < CORE_OP_HANDLERS_SIZE { coreOpHandlers := coreOpHandlers[baseType := Some(newEntry)]; }
    }

    /** Register a handler for a type and the types it coerces with, giving codes to new ones. */
    method RegisterOperation(baseType: int, coercibleTypes: seq<int>, handler: int)
      requires Coherent() && Minted() && forall t :: Recognized(t) >= 0
      modifies this`opHandlers, this`coreOpHandlers, this`dynamicTypes, this`nextDynamicCode
      ensures Coherent() && Minted() && TypeCode(baseType) != UNSUPPORTED_TYPE
      ensures exists codes ::
        && |codes| == |coercibleTypes|
        && (forall i :: 0 <= i < |codes| ==> codes[i] == TypeCode(coercibleTypes[i]) != UNSUPPORTED_TYPE)
        && opHandlers == Registered(old(opHandlers), HandlerInfo(TypeCode(baseType), codes, handler))
      ensures forall t :: old(TypeCode(t)) != UNSUPPORTED_TYPE ==> TypeCode(t) == old(TypeCode(t))
    {
      var baseCode := ResolveOrAssignTypeCode(baseType);
      var codes := [];
      for i := 0 to |coercibleTypes|
        invariant Coherent() && Minted() && opHandlers == old(opHandlers) && coreOpHandlers == old(coreOpHandlers)
        invariant TypeCode(baseType) == baseCode != UNSUPPORTED_TYPE
        invariant |codes| == i && forall j :: 0 <= j < i ==> codes[j] == TypeCode(coercibleTypes[j]) != UNSUPPORTED_TYPE
        invariant forall t :: old(TypeCode(t)) != UNSUPPORTED_TYPE ==> TypeCode(t) == old(TypeCode(t))
      {
        var code := ResolveOrAssignTypeCode(coercibleTypes[i]);
        codes := codes + [code];
      }
      RegisterOperationalHandler(baseCode, codes, handler);
    }

    /** RegisterTypeCoder: once per ID. What was recognized keeps its code; any other type, one with a
        minted code included, has from now on the code the coder gives it. */
    method RegisterTypeCoder(coder: int -> int, id: int)
      modifies this`extraTypers
      ensures
        var isNew := forall i :: 0 <= i < |old(extraTypers)| ==> old(extraTypers)[i].id != id;
        && extraTypers == (if isNew then old(extraTypers) + [Typer(id, coder)] else old(extraTypers))
        && forall t :: TypeCode(t) ==
             if old(Recognized(t)) == UNSUPPORTED_TYPE && isNew &&
               coder(t) != UNSUPPORTED_TYPE then coder(t) else old(TypeCode(t))
    {
      for i := 0 to |extraTypers|
        invariant forall j :: 0 <= j < i ==> extraTypers[j].id != id
      {
        if extraTypers[i].id == id { return; }
      }
      forall t ensures Coded(extraTypers + [Typer(id, coder)], t) ==
        if Coded(extraTypers, t) != UNSUPPORTED_TYPE then Coded(extraTypers, t) else coder(t)
      {
        CodedLast(extraTypers, Typer(id, coder), t);
      }
      extraTypers := extraTypers + [Typer(id, coder)];
    }

    /** ClearOperations. The custom coders stay. */
    method ClearOperations()
      modifies this`opHandlers, this`coreOpHandlers, this`dynamicTypes, this`nextDynamicCode
      ensures Coherent() && Minted() && opHandlers == [] && dynamicTypes == map[]
      ensures forall t :: TypeCode(t) == Recognized(t)
    {
      opHandlers, coreOpHandlers := [], seq(CORE_OP_HANDLERS_SIZE, _ => None);
      dynamicTypes, nextDynamicCode := map[], FIRST_DYNAMIC_TYPE_CODE - 1;
    }

    /** The cache first, then one scan for whatever it did not have. */
    method OperationDispatcher(aType: int, bType: int, coercing: bool, autoCoerc: bool) returns (r: Route)
      requires Coherent()
      ensures r == Scan(opHandlers, aType, bType, coercing, autoCoerc)
      ensures aType == bType ==> RoutesSame(opHandlers, aType, coercing, r)
      ensures aType != bType ==> RoutesMixed(opHandlers, aType, bType, autoCoerc, r)
    {
      ScanRoutes(opHandlers, aType, bType, coercing, autoCoerc);
      var a: Option<HandlerInfo>, b: Option<HandlerInfo> := None, None;
      if 0 <= aType < CORE_OP_HANDLERS_SIZE {
        a := coreOpHandlers[aType];
        if aType == bType { b := a; }
      }
      if b.None? && 0 <= bType < CORE_OP_HANDLERS_SIZE { b := coreOpHandlers[bType]; }
      if a.None? || b.None? { a, b := FinishLookup(aType, bType, a, b); }
      if aType == bType {
        if coercing { return Unchanged; }
        if a.None? { return NoHandler; }
        return Invoke(a.value.handler);
      }
      if !autoCoerc { return CoercionDisabled; }
      if a.Some? && bType in a.value.coercionTypes { return Invoke(a.value.handler); }
      if b.Some? && aType in b.value.coercionTypes { return Invoke(b.value.handler); }
      return NoCommonHandler;
    }

    /** The scan of the table, which stops as soon as nothing is missing. */
    method FinishLookup(aType: int, bType: int, a0: Option<HandlerInfo>, b0: Option<HandlerInfo>)
      returns (a: Option<HandlerInfo>, b: Option<HandlerInfo>)
      requires Coherent()
      requires (a0.Some? ==> a0 == Find(opHandlers, aType)) && (b0.Some? ==> b0 == Find(opHandlers, bType))
      ensures a == Find(opHandlers, aType)
      ensures aType != bType ==> b == Find(opHandlers, bType)
    {
      a, b := a0, b0;
      for i := 0 to |opHandlers|
        invariant a.Some? ==> a == Find(opHandlers, aType)
        invariant b.Some? ==> b == Find(opHandlers, bType)
        invariant a.None? ==> forall j :: 0 <= j < i ==> opHandlers[j].baseType != aType
        invariant b.None? ==> forall j :: 0 <= j < i ==> opHandlers[j].baseType != bType
      {
        var candidate := opHandlers[i];
        FindAt(opHandlers, i);
        if a.None? && candidate.baseType == aType { a := Some(candidate); }
        if b.None? && candidate.baseType == bType { b := Some(candidate); }
        if a.Some? && (aType == bType || b.Some?) { return; }
      }
      FindNone(opHandlers, aType);
      FindNone(opHandlers, bType);
    }
  }

  /** A registration changes the outcome only of operations that involve its type. */
  lemma RegistrationIsLocal(table: seq<HandlerInfo>, e: HandlerInfo, aType: int, bType: int, coercing: bool,
      autoCoerc: bool)
    requires aType != e.baseType && bType != e.baseType
    ensures Scan(Registered(table, e), aType, bType, coercing, autoCoerc) ==
        Scan(table, aType, bType, coercing, autoCoerc)
  {
    RegisteredFind(table, e, aType);
    RegisteredFind(table, e, bType);
  }

  /** A registered handler serves its own type, and a type it lists on either side of it: on its right
      always, on its left unless that type's own handler already serves the pair. */
  lemma RegistrationServes(table: seq<HandlerInfo>, e: HandlerInfo, other: int)
    requires OnePerCode(table) && other != e.baseType && other in e.coercionTypes
    ensures Scan(Registered(table, e), e.baseType, e.baseType, false, false) == Invoke(e.handler)
    ensures Scan(Registered(table, e), e.baseType, other, false, true) == Invoke(e.handler)
    ensures (forall x <- table :: !Lists(table, x, other, e.baseType)) ==>
      Scan(Registered(table, e), other, e.baseType, false, true) == Invoke(e.handler)
  {
    RegisteredFind(table, e, e.baseType);
    RegisteredFind(table, e, other);
    FindIs(table, other);
  }
}
