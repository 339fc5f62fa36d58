/**
 * The select widget: its constructor keeps an options argument with a
 * truthy `length` as it is, wraps anything else in a fresh one-element list,
 * and hands the attributes and the label to the base widget.
 */
module SelectWidget {
  import opened Wrappers
  import opened JsValues
  import opened Attributes
  import opened Widgets

  /** The options argument: a primitive, an array, or a plain object. */
  datatype Options = Scalar(v: JsValue) | List(items: seq<Options>) | Record(props: Attrs)

  /** JavaScript truthiness; arrays and objects are always truthy. */
  predicate OptionsTruthy(o: Options) {
    o.Scalar? ==> Truthy(o.v)
  }

  /**
   * `o.length` for a truthy `o`: a string's or an array's length, an object's
   * own `length` property, nothing for any other primitive.
   */
  function LengthOf(o: Options): (len: JsValue) {
    match o
    case Scalar(v) => if v.Str? then Num(|v.s|) else Undefined
    case List(items) => Num(|items|)
    case Record(props) => Get(props, "length")
  }

  /** `options && options.length`: the argument is kept as the option list. */
  predicate KeptAsIs(o: Options) {
    OptionsTruthy(o) && Truthy(LengthOf(o))
  }

  /** The option list `init` stores for the argument `o`. */
  function NormalizeOptions(o: Options): (r: Options) {
    if KeptAsIs(o) then o else List([o])
  }

  // ---------------------------------------------------------------------------
  // Properties

  /**
   * An argument with a truthy, non-zero `length` is stored as it is, its
   * order kept; anything else becomes a one-element list holding it.
   */
  lemma NormalizeCases(o: Options)
    ensures KeptAsIs(o) ==> NormalizeOptions(o) == o
    ensures !KeptAsIs(o) ==> NormalizeOptions(o) == List([o]) && NormalizeOptions(o).items[0] == o
  {
  }

  /**
   * The stored options always have a truthy length, and a length of at least
   * one whenever it is a number: a string or an array.
   */
  lemma NormalizedLength(o: Options)
    ensures Truthy(LengthOf(NormalizeOptions(o)))
    ensures !NormalizeOptions(o).Record? ==> LengthOf(NormalizeOptions(o)).Num? && LengthOf(NormalizeOptions(o)).n >= 1
  {
  }

  /** An empty array becomes a one-element list whose only element is that empty array. */
  lemma EmptyListWrapped()
    ensures NormalizeOptions(List([])) == List([List([])])
  {
  }

  /** Normalising twice stores what normalising once does. */
  lemma NormalizeIdempotent(o: Options)
    ensures NormalizeOptions(NormalizeOptions(o)) == NormalizeOptions(o)
  {
  }

  /** A non-empty array is kept element for element. */
  lemma NonEmptyListKept(items: seq<Options>)
    requires items != []
    ensures NormalizeOptions(List(items)) == List(items)
  {
  }

  // ---------------------------------------------------------------------------
  // The widget

  class Select {
    var options: Options
    var attributes: Attrs
    var ownLabel: Option<Label>

    /** `new Select(options, attributes, label)`: runs `init` on the fresh select. */
    constructor (options: Options, attributes: Attrs, ownLabel: Option<Label>)
      ensures this.options == NormalizeOptions(options)
      ensures this.attributes == attributes && this.ownLabel == ownLabel
    {
      this.options := List([]);
      this.attributes := [];
      this.ownLabel := None;
      new;
      Init(options, attributes, ownLabel);
    }

    /**
     * `init(options, attributes, label)`: keeps `options` when it has a truthy
     * `length`, otherwise pushes it into a fresh empty list; the attributes and
     * the label go to the base widget as they are.
     */
    method Init(options: Options, attributes: Attrs, ownLabel: Option<Label>)
      modifies this
      ensures this.options == NormalizeOptions(options)
      ensures this.attributes == attributes && this.ownLabel == ownLabel
    {
      if OptionsTruthy(options) && Truthy(LengthOf(options)) {
        this.options := options;
      } else {
        var list: seq<Options> := [];
        list := list + [options];
        this.options := List(list);
      }
      this.attributes := attributes;
      this.ownLabel := ownLabel;
    }
  }
}
