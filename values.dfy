/** Values that cross the interceptor's boundary: Java references that may be
    null, the dictionary's answer, languages, and the failures the interceptor
    lets propagate to its caller. */
module Values {

  /** A possibly-null reference: `None` stands for Java's `null`. */
  datatype Option<+T> = None | Some(value: T)

  /** The exceptions the interceptor can raise (or let escape). */
  datatype Error =
    | NullPointer          // a method called on null: `replace` on or with a null String, `getBody()` on a null response
    | ClassCast            // a marked argument or the handler's result has the wrong class
    | IndexOutOfBounds     // `Matcher.group` asked for a group the pattern does not have
    | LanguageNotDeclared  // the native language setting is missing at construction

  /** What an operation that may throw produces: its value, or the
      exception it raises. */
  datatype Result<+T> = Ok(value: T) | Err(error: Error)

  /** A Java `Object` as the interceptor sees it: null, a `String`, or some
      other object, identified only by an opaque identity. */
  datatype Value = Null | Str(s: string) | Obj(id: nat)

  /** A nullable `String` as an `Object`. */
  function Nullable(text: Option<string>): Value
  {
    match text
    case None => Null
    case Some(s) => Str(s)
  }

  /** The cast `(String) v`; it fails only on a non-null, non-String object,
      which callers rule out. */
  function AsText(v: Value): Option<string>
    requires !v.Obj?
  {
    match v
    case Null => None
    case Str(s) => Some(s)
  }

  /** How Java's `+` renders a possibly-null `String`. */
  function ConcatText(text: Option<string>): string
  {
    match text
    case None => "null"
    case Some(s) => s
  }

  /** A language, identified by its code (`title`). */
  datatype Language = Language(title: string)

  /** The dictionary's answer: the text in the native language and the text in
      the caller's language; either may be null. */
  datatype TranslationResult = TranslationResult(nativeKey: Option<string>, foreignValue: Option<string>)

  /** `DictionaryService.translate(source, target, text)`; the text may be null. */
  type Dictionary = (Language, Language, Option<string>) -> TranslationResult

  /** One regex match: the captured text of each group, indexed by group
      number (group 0 is the whole match); `None` for a group that did not
      take part in the match. */
  type Match = seq<Option<string>>

  /** The regex engine: every successive match of a pattern in an input. */
  type RegexEngine = (string, string) -> seq<Match>

  /** What one interception works with: the two languages, the dictionary
      and the regex engine. */
  datatype Env = Env(nativeLanguage: Language, requestLanguage: Language, dictionary: Dictionary, find: RegexEngine)
}
