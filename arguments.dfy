/** Argument rewriting, the "before" half of `I18nProxy.translate`: every
    argument whose parameter carries a translation marker is translated from
    the caller's language into the native language before the handler runs.

    The specification functions below follow the source's loops: a fold over
    the regex matches and, inside each match, over the target groups; a fold
    over a parameter's annotations; and one slot per argument, later patched
    with the original argument wherever it is still null. They recurse on the
    last element so that a loop's invariant is the function applied to the
    prefix done so far. */
module ArgumentRewriter {
  import opened Values
  import opened JavaStrings

  /** The annotations a parameter may carry: the regex marker with its
      pattern, target groups and delimiter; the whole-string marker; or any
      other annotation, which the interceptor ignores. */
  datatype Marker =
    | RegexArgument(regex: string, targetGroups: seq<int>, delimiter: string)
    | StringArgument
    | OtherAnnotation

  predicate Recognised(marker: Marker)
  {
    !marker.OtherAnnotation?
  }

  /** A handler parameter: its declared annotations, in declaration order. */
  datatype Parameter = Parameter(annotations: seq<Marker>)

  /** No annotation of the parameter is a translation marker. */
  predicate Unmarked(p: Parameter)
  {
    forall j :: 0 <= j < |p.annotations| ==> !Recognised(p.annotations[j])
  }

  /** `annotations[j]` is the last translation marker in the list. */
  predicate LastMarkerAt(annotations: seq<Marker>, j: int)
  {
    0 <= j < |annotations| && Recognised(annotations[j])
    && forall k :: j < k < |annotations| ==> !Recognised(annotations[k])
  }

  /** `translate(request, native, text).nativeKey()`. */
  function NativeKey(env: Env, text: Option<string>): Option<string>
  {
    env.dictionary(env.requestLanguage, env.nativeLanguage, text).nativeKey
  }

  /** One step of the regex loop: translate group `group` of match `m` and,
      when a translation exists, replace every occurrence of the captured text
      in the working string. */
  function RegexStep(env: Env, working: Option<string>, m: Match, group: int): (r: Result<Option<string>>)
    ensures r.Err? <==>
      !(0 <= group < |m|) || (NativeKey(env, m[group]).Some? && (working.None? || m[group].None?))
    ensures 0 <= group < |m| && NativeKey(env, m[group]).None? ==> r == Ok(working)
    ensures working.Some? && r.Ok? ==> r.value.Some?
  {
    if !(0 <= group < |m|) then Err(IndexOutOfBounds)
    else
      var captured := m[group];
      var translation := NativeKey(env, captured);
      if translation.None? then Ok(working)
      else if working.None? || captured.None? then Err(NullPointer)
      else Ok(Some(Replace(working.value, captured.value, translation.value)))
  }

  /** The inner loop: the steps of one match, in target-group order. */
  function GroupsFold(env: Env, working: Option<string>, m: Match, groups: seq<int>): (r: Result<Option<string>>)
    ensures working.Some? && r.Ok? ==> r.value.Some?
    decreases |groups|
  {
    if groups == [] then Ok(working)
    else
      match GroupsFold(env, working, m, groups[..|groups| - 1])
      case Err(e) => Err(e)
      case Ok(w) => RegexStep(env, w, m, groups[|groups| - 1])
  }

  /** The outer loop: the matches in the order the engine finds them. */
  function MatchesFold(env: Env, working: Option<string>, matches: seq<Match>, groups: seq<int>): (r: Result<Option<string>>)
    ensures working.Some? && r.Ok? ==> r.value.Some?
    decreases |matches|
  {
    if matches == [] then Ok(working)
    else
      match MatchesFold(env, working, matches[..|matches| - 1], groups)
      case Err(e) => Err(e)
      case Ok(w) => GroupsFold(env, w, matches[|matches| - 1], groups)
  }

  /** The regex marker on a (possibly null) String: match `regex + delimiter`
      against `target + delimiter`, then fold the substitutions over the
      target itself. */
  function RegexText(env: Env, target: Option<string>, regex: string, groups: seq<int>, delimiter: string): (r: Result<Option<string>>)
    ensures target.Some? && r.Ok? ==> r.value.Some?
    ensures env.find(regex + delimiter, ConcatText(target) + delimiter) == [] ==> r == Ok(target)
  {
    MatchesFold(env, target, env.find(regex + delimiter, ConcatText(target) + delimiter), groups)
  }

  /** What one annotation does to the argument's slot: another annotation
      leaves it alone; a marker on a non-String object is a
      `ClassCastException`; otherwise the marker overwrites the slot with a
      String or null. */
  function MarkerStep(env: Env, marker: Marker, target: Value, slot: Value): (r: Result<Value>)
    ensures !Recognised(marker) ==> r == Ok(slot)
    ensures Recognised(marker) && target.Obj? ==> r == Err(ClassCast)
    ensures Recognised(marker) && r.Ok? ==> !r.value.Obj?
  {
    if !Recognised(marker) then Ok(slot)
    else if target.Obj? then Err(ClassCast)
    else if marker.StringArgument? then Ok(Nullable(NativeKey(env, AsText(target))))
    else
      match RegexText(env, AsText(target), marker.regex, marker.targetGroups, marker.delimiter)
      case Err(e) => Err(e)
      case Ok(w) => Ok(Nullable(w))
  }

  /** The slot of one argument after all its annotations, starting from null;
      it is never a non-String object. */
  function Slot(env: Env, annotations: seq<Marker>, target: Value): (r: Result<Value>)
    ensures r.Ok? ==> !r.value.Obj?
    decreases |annotations|
  {
    if annotations == [] then Ok(Null)
    else
      match Slot(env, annotations[..|annotations| - 1], target)
      case Err(e) => Err(e)
      case Ok(slot) => MarkerStep(env, annotations[|annotations| - 1], target, slot)
  }

  /** The slots of all arguments, or the first failure. */
  function Slots(env: Env, params: seq<Parameter>, args: seq<Value>): (r: Result<seq<Value>>)
    requires |params| == |args|
    ensures r.Ok? ==> |r.value| == |args|
    decreases |args|
  {
    if args == [] then Ok([])
    else
      var n := |args| - 1;
      match Slots(env, params[..n], args[..n])
      case Err(e) => Err(e)
      case Ok(slots) =>
        match Slot(env, params[n].annotations, args[n])
        case Err(e) => Err(e)
        case Ok(slot) => Ok(slots + [slot])
  }

  /** Every slot still null falls back to the original argument. */
  function Fallback(slots: seq<Value>, args: seq<Value>): (r: seq<Value>)
    requires |slots| == |args|
    ensures |r| == |args|
    ensures forall i :: 0 <= i < |args| ==> (r[i].Null? <==> slots[i].Null? && args[i].Null?)
    ensures forall i :: 0 <= i < |args| && !slots[i].Null? ==> r[i] == slots[i]
    ensures forall i :: 0 <= i < |args| && slots[i].Null? ==> r[i] == args[i]
  {
    seq(|args|, i requires 0 <= i < |args| => if slots[i].Null? then args[i] else slots[i])
  }

  /** The arguments the handler receives: as many as were passed, and a
      non-null argument never reaches the handler as null. */
  function Arguments(env: Env, params: seq<Parameter>, args: seq<Value>): (r: Result<seq<Value>>)
    requires |params| == |args|
    ensures r.Ok? ==> |r.value| == |args|
    ensures r.Ok? ==> forall i :: 0 <= i < |args| && !args[i].Null? ==> !r.value[i].Null?
  {
    match Slots(env, params, args)
    case Err(e) => Err(e)
    case Ok(slots) => Ok(Fallback(slots, args))
  }

  // ---------------------------------------------------------------------
  // The source's loops

  /** The loop over the target groups of one match, rewriting the working
      string; the first failing group ends the whole rewrite. */
  method ApplyGroups(env: Env, working: Option<string>, m: Match, groups: seq<int>)
    returns (r: Result<Option<string>>)
    ensures r == GroupsFold(env, working, m, groups)
  {
    var w := working;
    for t := 0 to |groups|
      invariant GroupsFold(env, working, m, groups[..t]) == Ok(w)
    {
      assert groups[..t + 1][..t] == groups[..t];
      var group := groups[t];
      if !(0 <= group < |m|) {
        GroupsFoldFailure(env, working, m, groups, t + 1, IndexOutOfBounds);
        return Err(IndexOutOfBounds);
      }
      var captured := m[group];
      var translation := NativeKey(env, captured);
      if translation.Some? {
        if w.None? || captured.None? {
          GroupsFoldFailure(env, working, m, groups, t + 1, NullPointer);
          return Err(NullPointer);
        }
        w := Some(Replace(w.value, captured.value, translation.value));
      }
    }
    assert groups[..|groups|] == groups;
    r := Ok(w);
  }

  /** The `while (matcher.find())` loop: for each match in turn, the loop
      over its target groups (`ApplyGroups`). */
  method ApplyRegex(env: Env, target: Option<string>, regex: string, groups: seq<int>, delimiter: string)
    returns (r: Result<Option<string>>)
    ensures r == RegexText(env, target, regex, groups, delimiter)
  {
    var matches := env.find(regex + delimiter, ConcatText(target) + delimiter);
    var working := target;
    var k := 0;
    while k < |matches|
      invariant 0 <= k <= |matches|
      invariant MatchesFold(env, target, matches[..k], groups) == Ok(working)
    {
      assert matches[..k + 1][..k] == matches[..k];
      var step := ApplyGroups(env, working, matches[k], groups);
      if step.Err? {
        MatchesFoldFailure(env, target, matches, groups, k + 1, step.error);
        return Err(step.error);
      }
      working := step.value;
      k := k + 1;
    }
    assert matches[..|matches|] == matches;
    r := Ok(working);
  }

  /** The inner loop over one parameter's annotations: each recognised
      marker in turn overwrites the argument's slot, which starts out null. */
  method FillSlot(env: Env, annotations: seq<Marker>, target: Value) returns (r: Result<Value>)
    ensures r == Slot(env, annotations, target)
  {
    var slot := Null;
    for j := 0 to |annotations|
      invariant Slot(env, annotations[..j], target) == Ok(slot)
    {
      assert annotations[..j + 1][..j] == annotations[..j];
      match annotations[j]
      case RegexArgument(regex, groups, delimiter) =>
        if target.Obj? {
          SlotFailure(env, annotations, target, j + 1, ClassCast);
          return Err(ClassCast);
        }
        var w := ApplyRegex(env, AsText(target), regex, groups, delimiter);
        if w.Err? {
          SlotFailure(env, annotations, target, j + 1, w.error);
          return Err(w.error);
        }
        slot := Nullable(w.value);
      case StringArgument =>
        if target.Obj? {
          SlotFailure(env, annotations, target, j + 1, ClassCast);
          return Err(ClassCast);
        }
        slot := Nullable(NativeKey(env, AsText(target)));
      case OtherAnnotation =>
    }
    assert annotations[..|annotations|] == annotations;
    r := Ok(slot);
  }

  /** The two loops over the arguments: fill a fresh array slot by slot,
      then patch every null slot with the original argument. */
  method RewriteArguments(env: Env, params: seq<Parameter>, args: seq<Value>) returns (r: Result<seq<Value>>)
    requires |params| == |args|
    ensures r == Arguments(env, params, args)
  {
    var n := |args|;
    var translated := new Value[n](_ => Null);
    for i := 0 to n
      invariant Slots(env, params[..i], args[..i]) == Ok(translated[..i])
    {
      assert params[..i + 1][..i] == params[..i] && args[..i + 1][..i] == args[..i];
      var slot := FillSlot(env, params[i].annotations, args[i]);
      if slot.Err? {
        SlotsFailure(env, params, args, i + 1, slot.error);
        return Err(slot.error);
      }
      translated[i] := slot.value;
      assert translated[..i + 1] == translated[..i] + [slot.value];
    }
    assert params[..n] == params && args[..n] == args && translated[..n] == translated[..];
    ghost var slots := translated[..];
    for i := 0 to n
      invariant forall k :: 0 <= k < i ==> translated[k] == if slots[k].Null? then args[k] else slots[k]
      invariant forall k :: i <= k < n ==> translated[k] == slots[k]
    {
      if translated[i] == Null {
        translated[i] := args[i];
      }
    }
    assert translated[..] == Fallback(slots, args);
    r := Ok(translated[..]);
  }

  // ---------------------------------------------------------------------
  // A failure, once raised, is the outcome of the whole loop

  lemma {:induction false} GroupsFoldFailure(env: Env, working: Option<string>, m: Match, groups: seq<int>, t: nat, e: Error)
    requires t <= |groups| && GroupsFold(env, working, m, groups[..t]) == Err(e)
    ensures GroupsFold(env, working, m, groups) == Err(e)
    decreases |groups|
  {
    if t < |groups| {
      var n := |groups| - 1;
      assert groups[..n][..t] == groups[..t];
      GroupsFoldFailure(env, working, m, groups[..n], t, e);
    } else {
      assert groups[..t] == groups;
    }
  }

  lemma {:induction false} MatchesFoldFailure(env: Env, working: Option<string>, matches: seq<Match>, groups: seq<int>, k: nat, e: Error)
    requires k <= |matches| && MatchesFold(env, working, matches[..k], groups) == Err(e)
    ensures MatchesFold(env, working, matches, groups) == Err(e)
    decreases |matches|
  {
    if k < |matches| {
      var n := |matches| - 1;
      assert matches[..n][..k] == matches[..k];
      MatchesFoldFailure(env, working, matches[..n], groups, k, e);
    } else {
      assert matches[..k] == matches;
    }
  }

  lemma {:induction false} SlotFailure(env: Env, annotations: seq<Marker>, target: Value, j: nat, e: Error)
    requires j <= |annotations| && Slot(env, annotations[..j], target) == Err(e)
    ensures Slot(env, annotations, target) == Err(e)
    decreases |annotations|
  {
    if j < |annotations| {
      var n := |annotations| - 1;
      assert annotations[..n][..j] == annotations[..j];
      SlotFailure(env, annotations[..n], target, j, e);
    } else {
      assert annotations[..j] == annotations;
    }
  }

  lemma {:induction false} SlotsFailure(env: Env, params: seq<Parameter>, args: seq<Value>, i: nat, e: Error)
    requires |params| == |args| && i <= |args| && Slots(env, params[..i], args[..i]) == Err(e)
    ensures Slots(env, params, args) == Err(e)
    decreases |args|
  {
    if i < |args| {
      var n := |args| - 1;
      assert params[..n][..i] == params[..i] && args[..n][..i] == args[..i];
      SlotsFailure(env, params[..n], args[..n], i, e);
    } else {
      assert params[..i] == params && args[..i] == args;
    }
  }
}

module ArgumentProperties {
  import opened Values
  import opened JavaStrings
  import opened ArgumentRewriter

  // ---------------------------------------------------------------------
  // Positions

  /** Each argument's slot is the one its own annotations give it, and the
      whole rewrite succeeds exactly when every argument's does. */
  lemma {:induction false} SlotsAt(env: Env, params: seq<Parameter>, args: seq<Value>)
    requires |params| == |args|
    ensures Slots(env, params, args).Ok? <==>
      forall i :: 0 <= i < |args| ==> Slot(env, params[i].annotations, args[i]).Ok?
    ensures Slots(env, params, args).Ok? ==>
      forall i :: 0 <= i < |args| ==> Slot(env, params[i].annotations, args[i]) == Ok(Slots(env, params, args).value[i])
    decreases |args|
  {
    if args != [] {
      var n := |args| - 1;
      SlotsAt(env, params[..n], args[..n]);
      assert forall i :: 0 <= i < n ==> params[..n][i] == params[i] && args[..n][i] == args[i];
    }
  }

  /** A non-String object under a translation marker is a
      `ClassCastException`, whatever the other annotations are: the
      annotations before the first marker leave the slot null, and the first
      marker then fails. */
  lemma {:induction false} ObjSlot(env: Env, annotations: seq<Marker>, id: nat)
    requires exists j :: 0 <= j < |annotations| && Recognised(annotations[j])
    ensures Slot(env, annotations, Obj(id)) == Err(ClassCast)
    decreases |annotations|
  {
    var n := |annotations| - 1;
    var prefix := annotations[..n];
    if exists j :: 0 <= j < n && Recognised(annotations[j]) {
      var j :| 0 <= j < n && Recognised(annotations[j]);
      assert prefix[j] == annotations[j];
      ObjSlot(env, prefix, id);
    } else {
      assert Unmarked(Parameter(prefix)) by {
        forall k | 0 <= k < |prefix| ensures !Recognised(prefix[k]) {
          assert prefix[k] == annotations[k];
        }
      }
      UnmarkedSlot(env, prefix, Obj(id));
    }
  }

  /** A non-String object passed to a marked parameter makes the whole
      argument rewrite fail. */
  lemma ObjArgument(env: Env, params: seq<Parameter>, args: seq<Value>, i: int)
    requires |params| == |args| && 0 <= i < |args| && args[i].Obj?
    requires exists j :: 0 <= j < |params[i].annotations| && Recognised(params[i].annotations[j])
    ensures Arguments(env, params, args).Err?
  {
    ObjSlot(env, params[i].annotations, args[i].id);
    SlotsAt(env, params, args);
  }

  /** A parameter without a translation marker leaves its slot null. */
  lemma {:induction false} UnmarkedSlot(env: Env, annotations: seq<Marker>, target: Value)
    requires Unmarked(Parameter(annotations))
    ensures Slot(env, annotations, target) == Ok(Null)
    decreases |annotations|
  {
    if annotations != [] {
      UnmarkedSlot(env, annotations[..|annotations| - 1], target);
    }
  }

  /** When several markers are present, the last one decides the slot. */
  lemma {:induction false} LastMarkerWins(env: Env, annotations: seq<Marker>, target: Value, j: int)
    requires LastMarkerAt(annotations, j)
    requires Slot(env, annotations[..j], target).Ok?
    ensures Slot(env, annotations, target) == MarkerStep(env, annotations[j], target, Null)
    decreases |annotations|
  {
    var n := |annotations| - 1;
    if j < n {
      assert annotations[..n][..j] == annotations[..j];
      LastMarkerWins(env, annotations[..n], target, j);
    } else {
      assert annotations[..n] == annotations[..j];
    }
  }

  /** A failure in the annotations before a position makes the whole slot fail. */
  lemma {:induction false} SlotPrefixOk(env: Env, annotations: seq<Marker>, target: Value, j: nat)
    requires j <= |annotations| && Slot(env, annotations, target).Ok?
    ensures Slot(env, annotations[..j], target).Ok?
  {
    if Slot(env, annotations[..j], target).Err? {
      SlotFailure(env, annotations, target, j, Slot(env, annotations[..j], target).error);
    }
  }

  // ---------------------------------------------------------------------
  // The rewritten arguments

  /** The rewritten argument list has the original length, and every argument
      whose parameter carries no marker is passed on unchanged. */
  lemma ArgumentsUnmarked(env: Env, params: seq<Parameter>, args: seq<Value>, xs: seq<Value>)
    requires |params| == |args| && Arguments(env, params, args) == Ok(xs)
    ensures |xs| == |args|
    ensures forall i :: 0 <= i < |args| && Unmarked(params[i]) ==> xs[i] == args[i]
  {
    SlotsAt(env, params, args);
    forall i | 0 <= i < |args| && Unmarked(params[i])
      ensures xs[i] == args[i]
    {
      UnmarkedSlot(env, params[i].annotations, args[i]);
    }
  }

  /** The slot of argument `i` when its last marker sits at `j`. */
  lemma ArgumentSlot(env: Env, params: seq<Parameter>, args: seq<Value>, xs: seq<Value>, i: int, j: int)
    requires |params| == |args| && Arguments(env, params, args) == Ok(xs)
    requires 0 <= i < |args| && LastMarkerAt(params[i].annotations, j)
    ensures |xs| == |args|
    ensures MarkerStep(env, params[i].annotations[j], args[i], Null).Ok?
    ensures var slot := MarkerStep(env, params[i].annotations[j], args[i], Null).value;
      xs[i] == if slot.Null? then args[i] else slot
  {
    SlotsAt(env, params, args);
    SlotPrefixOk(env, params[i].annotations, args[i], j);
    LastMarkerWins(env, params[i].annotations, args[i], j);
  }

  /** A whole-string argument becomes its native key when the dictionary has
      one, and stays the original argument otherwise; a non-String argument
      under the marker is a `ClassCastException`. */
  lemma WholeStringArgument(env: Env, params: seq<Parameter>, args: seq<Value>, xs: seq<Value>, i: int, j: int)
    requires |params| == |args| && Arguments(env, params, args) == Ok(xs)
    requires 0 <= i < |args| && LastMarkerAt(params[i].annotations, j)
    requires params[i].annotations[j] == StringArgument
    ensures |xs| == |args| && !args[i].Obj?
    ensures xs[i] == match NativeKey(env, AsText(args[i]))
                     case None => args[i]
                     case Some(key) => Str(key)
  {
    ArgumentSlot(env, params, args, xs, i, j);
  }

  /** A regex argument that is a String becomes the String that the regex
      substitutions produce; when the engine finds no match, the original. */
  lemma RegexArgumentString(env: Env, params: seq<Parameter>, args: seq<Value>, xs: seq<Value>, i: int, j: int)
    requires |params| == |args| && Arguments(env, params, args) == Ok(xs)
    requires 0 <= i < |args| && LastMarkerAt(params[i].annotations, j)
    requires params[i].annotations[j].RegexArgument? && args[i].Str?
    ensures |xs| == |args|
    ensures var m := params[i].annotations[j];
      && RegexText(env, Some(args[i].s), m.regex, m.targetGroups, m.delimiter).Ok?
      && xs[i] == Nullable(RegexText(env, Some(args[i].s), m.regex, m.targetGroups, m.delimiter).value)
    ensures var m := params[i].annotations[j];
      env.find(m.regex + m.delimiter, args[i].s + m.delimiter) == [] ==> xs[i] == args[i]
  {
    ArgumentSlot(env, params, args, xs, i, j);
  }

  // ---------------------------------------------------------------------
  // The regex substitutions

  /** A step that keeps the working string: the group exists, and either the
      dictionary has no native key for the captured text or the key is that
      very text. */
  predicate KeepsText(env: Env, working: Option<string>, m: Match, group: int)
  {
    0 <= group < |m|
    && (NativeKey(env, m[group]).None?
        || (working.Some? && m[group].Some? && NativeKey(env, m[group]) == m[group]))
  }

  lemma {:induction false} GroupsKeepText(env: Env, working: Option<string>, m: Match, groups: seq<int>)
    requires forall t :: 0 <= t < |groups| ==> KeepsText(env, working, m, groups[t])
    ensures GroupsFold(env, working, m, groups) == Ok(working)
    decreases |groups|
  {
    if groups != [] {
      var n := |groups| - 1;
      GroupsKeepText(env, working, m, groups[..n]);
      var g := groups[n];
      if NativeKey(env, m[g]).Some? {
        ReplaceBySelf(working.value, m[g].value);
      }
    }
  }

  /** Substitutions whose captured texts have no translation (or translate to
      themselves) leave the argument as it was: a step whose native key is
      null changes nothing, and so does a match list with no match at all. */
  lemma {:induction false} MatchesKeepText(env: Env, working: Option<string>, matches: seq<Match>, groups: seq<int>)
    requires forall k, t :: 0 <= k < |matches| && 0 <= t < |groups| ==> KeepsText(env, working, matches[k], groups[t])
    ensures MatchesFold(env, working, matches, groups) == Ok(working)
    decreases |matches|
  {
    if matches != [] {
      var n := |matches| - 1;
      MatchesKeepText(env, working, matches[..n], groups);
      GroupsKeepText(env, working, matches[n], groups);
    }
  }

  /** The matches are processed in order: the substitutions of a longer match
      list continue from where those of its prefix stopped. */
  lemma {:induction false} MatchesInOrder(env: Env, working: Option<string>, first: seq<Match>, rest: seq<Match>, groups: seq<int>)
    ensures MatchesFold(env, working, first + rest, groups) ==
      match MatchesFold(env, working, first, groups)
      case Err(e) => Err(e)
      case Ok(w) => MatchesFold(env, w, rest, groups)
    decreases |rest|
  {
    if rest == [] {
      assert first + rest == first;
    } else {
      var n := |rest| - 1;
      assert (first + rest)[..|first + rest| - 1] == first + rest[..n];
      MatchesInOrder(env, working, first, rest[..n], groups);
    }
  }

  // ---------------------------------------------------------------------
  // Substitutions depend on their order

  /** A dictionary whose native keys chain: "a" becomes "b" and "b" becomes
      "c". */
  function ChainDictionary(source: Language, target: Language, text: Option<string>): TranslationResult
  {
    if text == Some("a") then TranslationResult(Some("b"), None)
    else if text == Some("b") then TranslationResult(Some("c"), None)
    else TranslationResult(None, None)
  }

  function ChainEnv(find: RegexEngine): Env
  {
    Env(Language("en"), Language("fr"), ChainDictionary, find)
  }

  /** Each substitution works on the output of the previous one, so a native
      key that is itself a captured text is translated again, and the result
      depends on the order of the matches. On "ab", the captures "a" then "b"
      give "cc", while "b" then "a" give "bc"; substituting every capture
      once in the original text would give "bc" in both orders. */
  lemma SubstitutionsCompose(find: RegexEngine)
    ensures MatchesFold(ChainEnv(find), Some("ab"), [[Some("a")], [Some("b")]], [0]) == Ok(Some("cc"))
    ensures MatchesFold(ChainEnv(find), Some("ab"), [[Some("b")], [Some("a")]], [0]) == Ok(Some("bc"))
  {
    var env := ChainEnv(find);
    assert Replace("ab", "a", "b") == "bb" by {
      assert StartsWith("ab", "a");
      assert "ab"[1..] == "b";
      assert !StartsWith("b", "a");
      assert "b"[1..] == [];
    }
    assert Replace("bb", "b", "c") == "cc" by {
      assert StartsWith("bb", "b");
      assert "bb"[1..] == "b";
      assert StartsWith("b", "b");
      assert "b"[1..] == [];
    }
    assert Replace("ab", "b", "c") == "ac" by {
      assert !StartsWith("ab", "b");
      assert "ab"[1..] == "b";
      assert StartsWith("b", "b");
      assert "b"[1..] == [];
    }
    assert Replace("ac", "a", "b") == "bc" by {
      assert StartsWith("ac", "a");
      assert "ac"[1..] == "c";
      assert !StartsWith("c", "a");
      assert "c"[1..] == [];
    }
    var ab: seq<Match> := [[Some("a")], [Some("b")]];
    var ba: seq<Match> := [[Some("b")], [Some("a")]];
    assert [0][..0] == [];
    assert ab[..1] == [[Some("a")]] && ab[..1][..0] == [];
    assert ba[..1] == [[Some("b")]] && ba[..1][..0] == [];
    assert MatchesFold(env, Some("ab"), ab[..1], [0]) == Ok(Some("bb"));
    assert MatchesFold(env, Some("ab"), ba[..1], [0]) == Ok(Some("ac"));
  }
}
