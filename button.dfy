/**
 * The button widget: its constructor accepts `(attributes, text)` or the
 * shorthand `(text)`, defaults the `type` attribute to `submit` with the
 * caller's attributes merged over it, and stores the text.
 */
module ButtonWidget {
  import opened Wrappers
  import opened JsValues
  import opened Attributes

  /** A constructor argument: a plain object of attributes, or a primitive. */
  datatype Arg = Object(props: Attrs) | Prim(v: JsValue)

  /** Objects are always truthy. */
  predicate ArgTruthy(a: Arg) {
    a.Object? || Truthy(a.v)
  }

  /** A JavaScript object's property names are unique. */
  predicate WellFormed(a: Arg) {
    a.Object? ==> UniqueKeys(a.props)
  }

  /** The `i`-th argument, `undefined` when fewer were passed. */
  function ArgAt(args: seq<Arg>, i: nat): (a: Arg) {
    if i < |args| then args[i] else Prim(Undefined)
  }

  /** The button's attribute defaults. */
  const AttrDefaults: Attrs := [("type", Str("submit"))]

  /** The shorthand: exactly one argument, and it is a string. */
  predicate Shorthand(args: seq<Arg>) {
    |args| == 1 && args[0].Prim? && args[0].v.Str?
  }

  /** The attributes parameter once the shorthand is resolved. */
  function AttributesParam(args: seq<Arg>): (a: Arg) {
    if Shorthand(args) then Object([]) else ArgAt(args, 0)
  }

  /** The text parameter once the shorthand is resolved. */
  function TextParam(args: seq<Arg>): (t: Arg) {
    if Shorthand(args) then args[0] else ArgAt(args, 1)
  }

  /** The properties of a string as a merge source: each character under its index. */
  function StringProps(s: string): (props: Attrs) {
    if s == [] then [] else StringProps(s[..|s| - 1]) + [(NatToString(|s| - 1), Str([s[|s| - 1]]))]
  }

  /**
   * The properties `_.merge` copies from a source: an object's own, a
   * string's characters, nothing from any other primitive.
   */
  function SourceProps(a: Arg): (props: Attrs) {
    match a
    case Object(props) => props
    case Prim(v) => if v.Str? then StringProps(v.s) else []
  }

  /** The button's attributes: the defaults with the caller's merged over them. */
  function ButtonAttributes(args: seq<Arg>): (attrs: Attrs) {
    Merge(Merge([], AttrDefaults), SourceProps(AttributesParam(args)))
  }

  /** `text || ''`: the text, or `''` when it is falsy. */
  function Text(text: Arg): (t: Arg) {
    if ArgTruthy(text) then text else Prim(Str(""))
  }

  /** The button's text. */
  function ButtonText(args: seq<Arg>): (t: Arg) {
    Text(TextParam(args))
  }

  /**
   * `(text || value) || ''` as written: for a falsy text it evaluates the
   * name `value`, which is declared nowhere, and so throws a ReferenceError.
   */
  function TextAsWritten(text: Arg): (r: Result<Arg, string>) {
    if ArgTruthy(text) then Ok(text) else Err("ReferenceError: value is not defined")
  }

  // ---------------------------------------------------------------------------
  // Properties

  /** A string's characters become the properties `"0"`, `"1"`, ... : one per character, keys unique. */
  lemma {:induction false} StringPropsKeys(s: string)
    ensures |StringProps(s)| == |s|
    ensures UniqueKeys(StringProps(s))
    ensures forall k :: k in Keys(StringProps(s)) ==> exists i :: 0 <= i < |s| && k == NatToString(i)
  {
    if s != [] {
      var init := s[..|s| - 1];
      var p := (NatToString(|s| - 1), Str([s[|s| - 1]]));
      StringPropsKeys(init);
      if p.0 in Keys(StringProps(init)) {
        var i :| 0 <= i < |init| && p.0 == NatToString(i);
        NatToStringInjective(i, |s| - 1);
      }
      SnocKeys(StringProps(init), p);
      assert StringProps(s) == StringProps(init) + [p];
      forall k | k in Keys(StringProps(s))
        ensures exists i :: 0 <= i < |s| && k == NatToString(i)
      {
        if k != p.0 {
          var i :| 0 <= i < |init| && k == NatToString(i);
          assert 0 <= i < |s|;
        } else {
          assert k == NatToString(|s| - 1);
        }
      }
      assert forall k :: k in Keys(StringProps(s)) ==> exists i :: 0 <= i < |s| && k == NatToString(i);
    }
  }

  lemma SourcePropsUnique(a: Arg)
    requires WellFormed(a)
    ensures UniqueKeys(SourceProps(a))
  {
    if a.Prim? && a.v.Str? {
      StringPropsKeys(a.v.s);
    }
  }

  lemma DefaultsMerged()
    ensures Merge([], AttrDefaults) == AttrDefaults
  {
  }

  /**
   * The attributes always hold `type`: the caller's own `type` when given,
   * `submit` otherwise; every caller key is present with the caller's value
   * (a caller's `undefined` never hides the default); no other key is added.
   */
  lemma ButtonAttributesFacts(args: seq<Arg>, k: string)
    requires forall i :: 0 <= i < |args| ==> WellFormed(args[i])
    ensures var a, caller := ButtonAttributes(args), SourceProps(AttributesParam(args));
      && UniqueKeys(a)
      && Keys(a) == {"type"} + Keys(caller)
      && Get(a, "type") == (if Get(caller, "type") != Undefined then Get(caller, "type") else Str("submit"))
      && (k != "type" ==> Get(a, k) == Get(caller, k))
  {
    var caller := SourceProps(AttributesParam(args));
    SourcePropsUnique(AttributesParam(args));
    DefaultsMerged();
    assert AttrDefaults[1..] == [];
    assert Keys(AttrDefaults) == {"type"};
    MergeUnique(AttrDefaults, caller);
    MergeKeys(AttrDefaults, caller);
    MergeGet(AttrDefaults, caller, "type");
    MergeGet(AttrDefaults, caller, k);
  }

  /** With only a string argument, that string is the text and the attributes are exactly `{type: 'submit'}`. */
  lemma ShorthandButton(args: seq<Arg>)
    requires Shorthand(args)
    ensures ButtonAttributes(args) == [("type", Str("submit"))]
    ensures ButtonText(args) == args[0]
  {
  }

  /** With two or more arguments the first is always the attributes and the second the text. */
  lemma TwoArgumentButton(args: seq<Arg>)
    requires |args| >= 2
    ensures ButtonAttributes(args) == Merge(AttrDefaults, SourceProps(args[0]))
    ensures ButtonText(args) == Text(args[1])
  {
  }

  /** A truthy text is stored as given. */
  lemma TextVerbatim(args: seq<Arg>)
    requires ArgTruthy(TextParam(args))
    ensures ButtonText(args) == TextParam(args)
  {
  }

  /** The text, as written, fails exactly when it is falsy, and agrees with `text || ''` otherwise. */
  lemma TextAsWrittenAgrees(text: Arg)
    ensures TextAsWritten(text).Err? <==> !ArgTruthy(text)
    ensures TextAsWritten(text).Ok? ==> TextAsWritten(text).value == Text(text)
  {
  }

  /** `new Button({})` throws as written, where `text || ''` gives an empty text. */
  lemma ButtonWithoutTextThrows()
    ensures TextAsWritten(TextParam([Object([])])).Err?
    ensures ButtonText([Object([])]) == Prim(Str(""))
  {
  }

  // ---------------------------------------------------------------------------
  // The widget

  class Button {
    var attributes: Attrs
    var text: Arg

    /** `new Button(...args)`: runs `init` on the fresh button. */
    constructor (args: seq<Arg>)
      ensures attributes == ButtonAttributes(args) && text == ButtonText(args)
    {
      attributes := [];
      text := Prim(Undefined);
      new;
      var _ := Init(args);
    }

    /**
     * `init(attributes, text)`: a lone string argument becomes the text with
     * empty attributes; the attributes are the defaults with the caller's
     * merged over them; the text falls back to `''`. Returns the button.
     */
    method Init(args: seq<Arg>) returns (self: Button)
      modifies this
      ensures self == this
      ensures attributes == ButtonAttributes(args) && text == ButtonText(args)
    {
      var attrDefaults := [("type", Str("submit"))];
      var attributesArg, textArg := ArgAt(args, 0), ArgAt(args, 1);
      if |args| == 1 && attributesArg.Prim? && attributesArg.v.Str? {
        textArg := attributesArg;
        attributesArg := Object([]);
      }
      attributes := Merge(Merge([], attrDefaults), SourceProps(attributesArg));
      text := if ArgTruthy(textArg) then textArg else Prim(Str(""));
      self := this;
    }
  }
}
