/** The interceptor itself: the construction guard and the `translate`
    advice that runs around every handler carrying the `I18n` marker. */
module I18nProxy {
  import opened Values
  import opened ArgumentRewriter
  import opened ArgumentProperties
  import opened ResponseRewriter
  import opened ResponseProperties

  /** The interceptor's configuration; both parts are fixed at construction. */
  datatype Proxy = Proxy(nativeLanguage: Language, dictionary: Dictionary)

  /** The constructor: a missing native-language setting is refused,
      otherwise the setting becomes the native language. */
  function NewProxy(nativeLanguage: Option<string>, dictionary: Dictionary): (r: Result<Proxy>)
    ensures r.Err? <==> nativeLanguage.None?
    ensures r.Err? ==> r.error == LanguageNotDeclared
    ensures r.Ok? ==> r.value.nativeLanguage.title == nativeLanguage.value && r.value.dictionary == dictionary
  {
    match nativeLanguage
    case None => Err(LanguageNotDeclared)
    case Some(code) => Ok(Proxy(Language(code), dictionary))
  }

  /** The environment of one call, from the caller's language code. */
  function CallEnv(proxy: Proxy, requestLanguage: string, find: RegexEngine): Env
  {
    Env(proxy.nativeLanguage, Language(requestLanguage), proxy.dictionary, find)
  }

  /** The full interception when the caller's language is not the native one:
      rewrite the arguments, run the handler on them, rewrite its response.
      It succeeds only when the argument rewrite does and the handler answers
      with a `ResponseEntity`, and the caller then gets a `ResponseEntity`. */
  function Intercepted(env: Env, params: seq<Parameter>, args: seq<Value>, handler: seq<Value> -> Returned): (r: Result<Returned>)
    requires |params| == |args|
    ensures r.Ok? <==> Arguments(env, params, args).Ok? && handler(Arguments(env, params, args).value).Entity?
    ensures r.Ok? ==> r.value.Entity?
  {
    match Arguments(env, params, args)
    case Err(e) => Err(e)
    case Ok(xs) => Response(env, handler(xs))
  }

  /** `I18nProxy.translate`: the locale gate, then the "before" and "after"
      parts around the handler. The caller's language code stands for the
      request's locale, `handler` for the intercepted method and `find` for
      the regex engine. */
  method Translate(proxy: Proxy, requestLanguage: string, find: RegexEngine,
                   params: seq<Parameter>, args: seq<Value>, handler: seq<Value> -> Returned)
    returns (r: Result<Returned>)
    requires |params| == |args|
    ensures requestLanguage == proxy.nativeLanguage.title ==> r == Ok(handler(args))
    ensures requestLanguage != proxy.nativeLanguage.title ==>
      r == Intercepted(CallEnv(proxy, requestLanguage, find), params, args, handler)
  {
    if requestLanguage == proxy.nativeLanguage.title {
      return Ok(handler(args));
    }
    var env := CallEnv(proxy, requestLanguage, find);
    var translated := RewriteArguments(env, params, args);
    if translated.Err? {
      return Err(translated.error);
    }
    var proceeded := handler(translated.value);
    r := RewriteResponse(env, proceeded);
  }

  // ---------------------------------------------------------------------
  // A worked call

  const English := Language("en")
  const French := Language("fr")

  /** A dictionary that knows two entries: "hello" said in French has the
      native key "bonjour-native", and the native "ok" reads "d'accord" in
      French. */
  function SampleDictionary(source: Language, target: Language, text: Option<string>): TranslationResult
  {
    if source == French && target == English && text == Some("hello") then TranslationResult(Some("bonjour-native"), None)
    else if source == English && target == French && text == Some("ok") then TranslationResult(None, Some("d'accord"))
    else TranslationResult(None, None)
  }

  function SampleEnv(find: RegexEngine): Env
  {
    CallEnv(Proxy(English, SampleDictionary), "fr", find)
  }

  /** A French caller's whole-string argument "hello" reaches the handler
      as "bonjour-native". */
  lemma SampleArguments(find: RegexEngine)
    ensures Arguments(SampleEnv(find), [Parameter([StringArgument])], [Str("hello")]) == Ok([Str("bonjour-native")])
  {
    var env := SampleEnv(find);
    var params, args := [Parameter([StringArgument])], [Str("hello")];
    SampleLookups(find);
    assert Slot(env, params[0].annotations, args[0]) == Ok(Str("bonjour-native")) by {
      assert params[0].annotations[..0] == [];
    }
    SlotsAt(env, params, args);
    var slots := Slots(env, params, args).value;
    assert slots == [Str("bonjour-native")];
    assert Fallback(slots, args) == [Str("bonjour-native")];
  }

  /** A response whose marked accessor `getTitle` returns "ok" comes back
      to the French caller as the map {"title": "d'accord"} under the same
      status. */
  lemma SampleResponse(find: RegexEngine)
    ensures Response(SampleEnv(find), Entity(200, Accessors([Accessor("getTitle", true, Str("ok"))])))
      == Ok(Entity(200, Entries(map["title" := Str("d'accord")])))
  {
    SampleBodyMap(find);
  }

  /** The map of the sample body. */
  lemma SampleBodyMap(find: RegexEngine)
    ensures BodyMap(SampleEnv(find), Accessors([Accessor("getTitle", true, Str("ok"))])) == map["title" := Str("d'accord")]
  {
    var env := SampleEnv(find);
    SampleLookups(find);
    SingleAccessorMap(env, Accessor("getTitle", true, Str("ok")));
    KeyOfGetTitle();
  }

  /** What the sample dictionary answers in the two directions. */
  lemma SampleLookups(find: RegexEngine)
    ensures NativeKey(SampleEnv(find), Some("hello")) == Some("bonjour-native")
    ensures ForeignValue(SampleEnv(find), "ok") == Some("d'accord")
  {
    assert SampleEnv(find).requestLanguage == French && SampleEnv(find).nativeLanguage == English;
  }

  /** The two halves together, around a handler that answers the translated
      argument with that response. */
  lemma SampleCall(find: RegexEngine, handler: seq<Value> -> Returned)
    requires handler([Str("bonjour-native")]) == Entity(200, Accessors([Accessor("getTitle", true, Str("ok"))]))
    ensures Intercepted(SampleEnv(find), [Parameter([StringArgument])], [Str("hello")], handler)
      == Ok(Entity(200, Entries(map["title" := Str("d'accord")])))
  {
    SampleArguments(find);
    SampleResponse(find);
  }
}
