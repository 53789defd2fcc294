/** The notifier, `showNotification(message, type = 'info')`: a banner whose
    background colour is looked up by kind in the `colors` object literal. */
module Notify {
  import opened Wrappers

  const SuccessColour: string := "#10b981"
  const ErrorColour: string := "#ef4444"
  const WarningColour: string := "#f59e0b"
  const InfoColour: string := "#3b82f6"

  /** The own properties of the `colors` object. */
  const Colours: map<string, string> := map[
    "success" := SuccessColour,
    "error" := ErrorColour,
    "warning" := WarningColour,
    "info" := InfoColour
  ]

  datatype Notification = Notification(message: string, kind: string)

  /** The `type` parameter: an omitted argument takes the default `'info'`. */
  function KindArgument(kind: Option<string>): string {
    match kind
    case None => "info"
    case Some(k) => k
  }

  /** `showNotification(message, type)`: the banner that is appended. */
  function Show(message: string, kind: Option<string>): Notification {
    Notification(message, KindArgument(kind))
  }

  /** The corrected colour lookup: the kind's own entry of `colors`, and
      the `info` colour for any other kind. The code's own lookup,
      `BackgroundAsWritten` below, differs from it for the names that
      `Object.prototype` defines. */
  function Background(kind: string): string {
    if kind in Colours then Colours[kind] else InfoColour
  }

  /** Under the corrected lookup the four recognised kinds get their table
      entries. */
  lemma RecognisedKinds()
    ensures Background("success") == SuccessColour && Background("error") == ErrorColour
    ensures Background("warning") == WarningColour && Background("info") == InfoColour
  {
  }

  /** Under the corrected lookup any other kind falls back to the `info`
      colour. */
  lemma UnrecognisedKind(kind: string)
    requires kind != "success" && kind != "error" && kind != "warning" && kind != "info"
    ensures Background(kind) == InfoColour
  {
  }

  /** An omitted kind is shown in the `info` colour. */
  lemma OmittedKind(message: string)
    ensures Show(message, None).kind == "info"
    ensures Background(Show(message, None).kind) == InfoColour
  {
  }

  /** Under the corrected lookup every banner gets one of the four palette
      colours. */
  lemma BackgroundInPalette(kind: string)
    ensures Background(kind) in {SuccessColour, ErrorColour, WarningColour, InfoColour}
  {
  }

  // ---------------------------------------------------------------------
  // The lookup as written: `colors[type] || colors.info`
  // ---------------------------------------------------------------------

  /** A value read from a property of `colors`: one of its own colour
      strings, a member inherited from `Object.prototype`, or `undefined`. */
  datatype PropertyValue = ColourString(css: string) | Inherited(name: string) | Undefined

  /** The properties every object literal inherits from `Object.prototype`
      (`__proto__` reads the prototype object itself). */
  const PrototypeMembers: set<string> := {
    "constructor", "hasOwnProperty", "isPrototypeOf", "propertyIsEnumerable",
    "toLocaleString", "toString", "valueOf", "__proto__",
    "__defineGetter__", "__defineSetter__", "__lookupGetter__", "__lookupSetter__"
  }

  /** `colors[key]`: own property first, then the prototype chain. */
  function ColoursProperty(key: string): PropertyValue {
    if key in Colours then ColourString(Colours[key])
    else if key in PrototypeMembers then Inherited(key)
    else Undefined
  }

  /** JavaScript truthiness of those values: non-empty strings, functions
      and objects are truthy, `undefined` is not. */
  predicate Truthy(v: PropertyValue) {
    match v
    case ColourString(css) => css != ""
    case Inherited(_) => true
    case Undefined => false
  }

  /** `colors[type] || colors.info`, as the code evaluates it. */
  function BackgroundAsWritten(kind: string): PropertyValue {
    var v := ColoursProperty(kind);
    if Truthy(v) then v else ColourString(InfoColour)
  }

  /** A kind that names an inherited member, such as `toString`, yields that
      member instead of a colour: the banner gets no valid background. */
  lemma AsWrittenInheritedKind()
    ensures BackgroundAsWritten("toString") == Inherited("toString")
    ensures BackgroundAsWritten("constructor") == Inherited("constructor")
  {
  }

  /** For the four recognised kinds the lookup as written gives the
      palette colour. */
  lemma AsWrittenRecognised()
    ensures BackgroundAsWritten("success") == ColourString(SuccessColour)
    ensures BackgroundAsWritten("error") == ColourString(ErrorColour)
    ensures BackgroundAsWritten("warning") == ColourString(WarningColour)
    ensures BackgroundAsWritten("info") == ColourString(InfoColour)
  {
  }

  /** Away from the inherited member names the lookup as written and the
      corrected one agree, so every call site in the script gets its
      palette colour either way. */
  lemma {:induction false} AsWrittenAgrees(kind: string)
    requires kind !in PrototypeMembers
    ensures BackgroundAsWritten(kind) == ColourString(Background(kind))
  {
    assert kind in Colours ==> Colours[kind] != "";
  }
}
