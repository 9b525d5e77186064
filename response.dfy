/** Response rewriting, the "after" half of `I18nProxy.translate`: the
    handler's `ResponseEntity` gets a new body, a name-to-value map built
    from the original body's accessors or fields, with the marked texts
    translated from the native language into the caller's language.

    Reflection is replaced by a tagged body: the accessor-shaped body (an
    anonymous class) lists its zero-argument methods with their marker and
    the value they return; the field-shaped body (a member class) lists its
    fields with their values. The class of an object is never an interface,
    so the source's `isInterface()` test never selects the accessor loop;
    a JDK dynamic proxy is neither anonymous nor a member class and falls
    to `Opaque`. */
module ResponseRewriter {
  import opened Values
  import opened JavaStrings

  /** A declared method of an accessor-shaped body: its name, whether it
      carries the `Translatable` marker, and what invoking it returns. */
  datatype Accessor = Accessor(name: string, marked: bool, value: Value)

  /** A declared field of a field-shaped body and its value. */
  datatype Field = Field(name: string, value: Value)

  /** A response body, by the class of the object. */
  datatype Body =
    | NullBody
    | Accessors(accessors: seq<Accessor>)   // an anonymous class
    | Fields(fields: seq<Field>)            // a member class
    | Entries(entries: map<string, Value>)  // a `HashMap`, as this interceptor builds
    | Opaque(id: nat)                       // any other class, dynamic proxies included

  /** What the handler returns: a `ResponseEntity`, null, or another object. */
  datatype Returned = Entity(status: int, body: Body) | NullReturn | NonEntity(id: nat)

  /** `translate(native, request, text).foreignValue()`. */
  function ForeignValue(env: Env, text: string): Option<string>
  {
    env.dictionary(env.nativeLanguage, env.requestLanguage, Some(text)).foreignValue
  }

  /** The map key of an accessor: its name without a leading `get`,
      lower-cased character by character, so that no upper-case ASCII
      letter is left in it. */
  function FieldName(methodName: string): (key: string)
    ensures var rest := if StartsWith(methodName, "get") then methodName[3..] else methodName;
      |key| == |rest| && forall i :: 0 <= i < |rest| ==> key[i] == LowerChar(rest[i]) && !IsUpper(key[i])
  {
    if StartsWith(methodName, "get") then ToLowerRoot(methodName[3..]) else ToLowerRoot(methodName)
  }

  /** One `map.put(key, value)` the loops may do; `value` is `None` when the
      loop body does no `put` at all. */
  datatype Put = Put(key: string, value: Option<Value>)

  /** The map after a sequence of puts, in order: a later put to a key
      overwrites an earlier one. */
  function PutAll(puts: seq<Put>): map<string, Value>
    decreases |puts|
  {
    if puts == [] then map[]
    else
      var m := PutAll(puts[..|puts| - 1]);
      var p := puts[|puts| - 1];
      if p.value.Some? then m[p.key := p.value.value] else m
  }

  /** One more put extends the map by that put, if it happens. */
  lemma PutAllOneMore(puts: seq<Put>, i: nat)
    requires i < |puts|
    ensures PutAll(puts[..i + 1]) ==
      if puts[i].value.Some? then PutAll(puts[..i])[puts[i].key := puts[i].value.value] else PutAll(puts[..i])
  {
    assert puts[..i + 1][..i] == puts[..i];
  }

  /** A key is in the map exactly when some put to it happens. */
  lemma {:induction false} PutAllKeys(puts: seq<Put>, key: string)
    ensures key in PutAll(puts) <==> exists i :: 0 <= i < |puts| && puts[i] == Put(key, puts[i].value) && puts[i].value.Some?
    decreases |puts|
  {
    if puts != [] {
      var n := |puts| - 1;
      PutAllKeys(puts[..n], key);
      if key in PutAll(puts[..n]) {
        var i :| 0 <= i < n && puts[..n][i] == Put(key, puts[..n][i].value) && puts[..n][i].value.Some?;
        assert puts[i] == puts[..n][i];
      }
      if exists i :: 0 <= i < |puts| && puts[i] == Put(key, puts[i].value) && puts[i].value.Some? {
        var i :| 0 <= i < |puts| && puts[i] == Put(key, puts[i].value) && puts[i].value.Some?;
        if i < n {
          assert puts[..n][i] == puts[i];
        }
      }
    }
  }

  /** What one accessor contributes: an unmarked value as it is; a marked
      String as its foreign value (null when the dictionary has none); a
      marked non-String nothing. */
  function AccessorPut(env: Env, a: Accessor): (p: Put)
    ensures p.key == FieldName(a.name)
    ensures p.value.Some? <==> !a.marked || a.value.Str?
    ensures a.marked && p.value.Some? ==> !p.value.value.Obj?
  {
    Put(FieldName(a.name),
        if !a.marked then Some(a.value)
        else if a.value.Str? then Some(Nullable(ForeignValue(env, a.value.s)))
        else None)
  }

  /** What one field contributes: a String as its foreign value (null when the
      dictionary has none), whatever its marker; any other value nothing. */
  function FieldPut(env: Env, f: Field): (p: Put)
    ensures p.key == f.name
    ensures p.value.Some? <==> f.value.Str?
    ensures p.value.Some? ==> !p.value.value.Obj?
  {
    Put(f.name, if f.value.Str? then Some(Nullable(ForeignValue(env, f.value.s))) else None)
  }

  function AccessorPuts(env: Env, accessors: seq<Accessor>): (puts: seq<Put>)
    ensures |puts| == |accessors|
  {
    seq(|accessors|, i requires 0 <= i < |accessors| => AccessorPut(env, accessors[i]))
  }

  function FieldPuts(env: Env, fields: seq<Field>): (puts: seq<Put>)
    ensures |puts| == |fields|
  {
    seq(|fields|, i requires 0 <= i < |fields| => FieldPut(env, fields[i]))
  }

  /** The names a body's map may use as keys. */
  function MemberKeys(body: Body): set<string>
  {
    match body
    case Accessors(accessors) => set i | 0 <= i < |accessors| :: FieldName(accessors[i].name)
    case Fields(fields) => set i | 0 <= i < |fields| :: fields[i].name
    case _ => {}
  }

  /** The map built from a non-null body: its keys are among the body's
      member names, and it is empty for a body of neither shape. */
  function BodyMap(env: Env, body: Body): (m: map<string, Value>)
    ensures m.Keys <= MemberKeys(body)
    ensures !body.Accessors? && !body.Fields? ==> m == map[]
  {
    match body
    case Accessors(accessors) =>
      var puts := AccessorPuts(env, accessors);
      assert forall key :: key in PutAll(puts) ==> key in MemberKeys(body) by {
        forall key | key in PutAll(puts) ensures key in MemberKeys(body) {
          PutAllKeys(puts, key);
        }
      }
      PutAll(puts)
    case Fields(fields) =>
      var puts := FieldPuts(env, fields);
      assert forall key :: key in PutAll(puts) ==> key in MemberKeys(body) by {
        forall key | key in PutAll(puts) ensures key in MemberKeys(body) {
          PutAllKeys(puts, key);
        }
      }
      PutAll(puts)
    case _ => map[]
  }

  /** The interceptor's result for what the handler returned. It succeeds
      exactly on a `ResponseEntity`: null fails in `getBody()`, any other
      object in the cast. A null body returns the response itself; any other
      body gives a response with the same status whose body is a map keyed
      by the body's member names. */
  function Response(env: Env, proceeded: Returned): (r: Result<Returned>)
    ensures r.Ok? <==> proceeded.Entity?
    ensures proceeded.NullReturn? ==> r == Err(NullPointer)
    ensures proceeded.NonEntity? ==> r == Err(ClassCast)
    ensures proceeded.Entity? && proceeded.body.NullBody? ==> r == Ok(proceeded)
    ensures proceeded.Entity? && !proceeded.body.NullBody? ==>
      && r.value.Entity? && r.value.status == proceeded.status && r.value.body.Entries?
      && r.value.body.entries.Keys <= MemberKeys(proceeded.body)
  {
    match proceeded
    case NullReturn => Err(NullPointer)
    case NonEntity(_) => Err(ClassCast)
    case Entity(status, body) =>
      if body.NullBody? then Ok(proceeded) else Ok(Entity(status, Entries(BodyMap(env, body))))
  }

  // ---------------------------------------------------------------------
  // The source's loops

  /** The loop over the declared methods of an accessor-shaped body. */
  method CollectAccessors(env: Env, accessors: seq<Accessor>) returns (m: map<string, Value>)
    ensures m == PutAll(AccessorPuts(env, accessors))
  {
    ghost var puts := AccessorPuts(env, accessors);
    m := map[];
    for i := 0 to |accessors|
      invariant m == PutAll(puts[..i])
    {
      PutAllOneMore(puts, i);
      var a := accessors[i];
      assert puts[i] == AccessorPut(env, a);
      var name := FieldName(a.name);
      if !a.marked {
        m := m[name := a.value];
      } else if a.value.Str? {
        var translated := env.dictionary(env.nativeLanguage, env.requestLanguage, Some(a.value.s));
        m := m[name := Nullable(translated.foreignValue)];
      }
    }
    assert puts[..|accessors|] == puts;
  }

  /** The loop over the declared fields of a field-shaped body. */
  method CollectFields(env: Env, fields: seq<Field>) returns (m: map<string, Value>)
    ensures m == PutAll(FieldPuts(env, fields))
  {
    ghost var puts := FieldPuts(env, fields);
    m := map[];
    for i := 0 to |fields|
      invariant m == PutAll(puts[..i])
    {
      PutAllOneMore(puts, i);
      var f := fields[i];
      assert puts[i] == FieldPut(env, f);
      if f.value.Str? {
        var translation := env.dictionary(env.nativeLanguage, env.requestLanguage, Some(f.value.s));
        m := m[f.name := Nullable(translation.foreignValue)];
      }
    }
    assert puts[..|fields|] == puts;
  }

  /** The "after" part: cast, read the body, build the map, wrap it. */
  method RewriteResponse(env: Env, proceeded: Returned) returns (r: Result<Returned>)
    ensures r == Response(env, proceeded)
  {
    if proceeded.NullReturn? {
      return Err(NullPointer);
    } else if proceeded.NonEntity? {
      return Err(ClassCast);
    }
    var body := proceeded.body;
    var m: map<string, Value> := map[];
    if !body.NullBody? {
      if body.Accessors? {
        m := CollectAccessors(env, body.accessors);
      } else if body.Fields? {
        m := CollectFields(env, body.fields);
      }
      return Ok(Entity(proceeded.status, Entries(m)));
    }
    r := Ok(proceeded);
  }
}

module ResponseProperties {
  import opened Values
  import opened JavaStrings
  import opened ResponseRewriter

  // ---------------------------------------------------------------------
  // The map accumulator

  /** The last put to a key decides its value. */
  lemma {:induction false} PutAllLast(puts: seq<Put>, i: int)
    requires 0 <= i < |puts| && puts[i].value.Some?
    requires forall j :: i < j < |puts| && puts[j].key == puts[i].key ==> puts[j].value.None?
    ensures puts[i].key in PutAll(puts) && PutAll(puts)[puts[i].key] == puts[i].value.value
    decreases |puts|
  {
    var n := |puts| - 1;
    if i < n {
      PutAllLast(puts[..n], i);
    }
  }

  // ---------------------------------------------------------------------
  // Key derivation

  /** `getTitle` gives the key `title`. */
  lemma KeyOfGetTitle()
    ensures FieldName("getTitle") == "title"
  {
    assert StartsWith("getTitle", "get");
    assert "getTitle"[3..] == "Title";
  }

  /** A name without the prefix is only lower-cased: `status` gives `status`. */
  lemma KeyOfStatus()
    ensures FieldName("status") == "status"
  {
    assert !StartsWith("status", "get") by { assert "status"[..3][0] == 's' != "get"[0]; }
  }

  // ---------------------------------------------------------------------
  // Accessor-shaped bodies

  /** Does the accessor's `put` happen? Unmarked ones always, marked ones
      only for a String. */
  predicate AccessorStores(a: Accessor)
  {
    !a.marked || a.value.Str?
  }

  /** A key is in the map exactly when an accessor with that derived name
      stores something: marked non-String accessors are left out. */
  lemma AccessorMapKeys(env: Env, accessors: seq<Accessor>, key: string)
    ensures key in BodyMap(env, Accessors(accessors)) <==>
      exists i :: 0 <= i < |accessors| && FieldName(accessors[i].name) == key && AccessorStores(accessors[i])
  {
    var puts := AccessorPuts(env, accessors);
    PutAllKeys(puts, key);
    if key in BodyMap(env, Accessors(accessors)) {
      var i :| 0 <= i < |puts| && puts[i] == Put(key, puts[i].value) && puts[i].value.Some?;
      assert FieldName(accessors[i].name) == key && AccessorStores(accessors[i]);
    }
    if exists i :: 0 <= i < |accessors| && FieldName(accessors[i].name) == key && AccessorStores(accessors[i]) {
      var i :| 0 <= i < |accessors| && FieldName(accessors[i].name) == key && AccessorStores(accessors[i]);
      assert puts[i] == Put(key, puts[i].value) && puts[i].value.Some?;
    }
  }

  /** The value under an accessor's key, when no later accessor stores under
      the same key: an unmarked value is copied unchanged, a marked String
      becomes its foreign value, null included. */
  lemma AccessorMapValue(env: Env, accessors: seq<Accessor>, i: int)
    requires 0 <= i < |accessors| && AccessorStores(accessors[i])
    requires forall j :: i < j < |accessors| && FieldName(accessors[j].name) == FieldName(accessors[i].name) ==> !AccessorStores(accessors[j])
    ensures var a := accessors[i];
      && FieldName(a.name) in BodyMap(env, Accessors(accessors))
      && BodyMap(env, Accessors(accessors))[FieldName(a.name)] ==
           if !a.marked then a.value else Nullable(ForeignValue(env, a.value.s))
  {
    var puts := AccessorPuts(env, accessors);
    forall j | i < j < |puts| && puts[j].key == puts[i].key
      ensures puts[j].value.None?
    {
      assert FieldName(accessors[j].name) == FieldName(accessors[i].name);
    }
    PutAllLast(puts, i);
  }

  /** A body with a single storing accessor maps its key to the stored value. */
  lemma SingleAccessorMap(env: Env, a: Accessor)
    requires AccessorStores(a)
    ensures BodyMap(env, Accessors([a])) ==
      map[FieldName(a.name) := if !a.marked then a.value else Nullable(ForeignValue(env, a.value.s))]
  {
    var puts := AccessorPuts(env, [a]);
    assert puts == [AccessorPut(env, a)];
    assert puts[..0] == [];
  }

  // ---------------------------------------------------------------------
  // Field-shaped bodies

  /** Only String fields appear in the map, under their own names. */
  lemma FieldMapKeys(env: Env, fields: seq<Field>, key: string)
    ensures key in BodyMap(env, Fields(fields)) <==>
      exists i :: 0 <= i < |fields| && fields[i].name == key && fields[i].value.Str?
  {
    var puts := FieldPuts(env, fields);
    PutAllKeys(puts, key);
    if key in BodyMap(env, Fields(fields)) {
      var i :| 0 <= i < |puts| && puts[i] == Put(key, puts[i].value) && puts[i].value.Some?;
      assert fields[i].name == key && fields[i].value.Str?;
    }
    if exists i :: 0 <= i < |fields| && fields[i].name == key && fields[i].value.Str? {
      var i :| 0 <= i < |fields| && fields[i].name == key && fields[i].value.Str?;
      assert puts[i] == Put(key, puts[i].value) && puts[i].value.Some?;
    }
  }

  /** A String field is stored as its foreign value, null included, when no
      later String field has the same name. */
  lemma FieldMapValue(env: Env, fields: seq<Field>, i: int)
    requires 0 <= i < |fields| && fields[i].value.Str?
    requires forall j :: i < j < |fields| && fields[j].name == fields[i].name ==> !fields[j].value.Str?
    ensures fields[i].name in BodyMap(env, Fields(fields))
    ensures BodyMap(env, Fields(fields))[fields[i].name] == Nullable(ForeignValue(env, fields[i].value.s))
  {
    var puts := FieldPuts(env, fields);
    PutAllLast(puts, i);
  }
}
