/**
 * The group widget: a container element (`<div>`, `<fieldset>`, ...) that
 * holds an ordered list of child widgets. It serialises its own opening and
 * closing tags; rendering and validation place the children's markup between
 * those tags and collect the children's errors in order.
 *
 * The children's own markup and errors come from code that is not part of
 * this model (the base widget and its templates), so each child is given by
 * what it renders and what it reports.
 */
module GroupWidget {
  import opened JsValues
  import opened Attributes

  /** A validation error, as reported by a field's rules. */
  datatype ValidationError = ValidationError(message: string)

  /** A child widget as the group sees it: its rendered markup and its validation errors. */
  datatype Child = Child(markup: string, errors: seq<ValidationError>)

  // ---------------------------------------------------------------------------
  // Tag serialisation

  /** One attribute as `key="value"`. */
  function Pair(key: string, value: JsValue): (s: string) {
    key + "=\"" + ToString(value) + "\""
  }

  /** The attributes as `key="value"` pairs in key order, with nothing between two pairs. */
  function Pairs(a: Attrs): (s: string) {
    if a == [] then "" else Pairs(a[..|a| - 1]) + Pair(a[|a| - 1].0, a[|a| - 1].1)
  }

  /** What follows the tag name: nothing when there are no attributes, else one space and the pairs. */
  function AttrString(a: Attrs): (s: string) {
    if a == [] then "" else " " + Pairs(a)
  }

  /** The opening tag of an element named `kind` with attributes `a`. */
  function OpenTag(kind: string, a: Attrs): (s: string) {
    "<" + kind + AttrString(a) + ">"
  }

  /** The closing tag of an element named `kind`. */
  function CloseTag(kind: string): (s: string) {
    "</" + kind + ">"
  }

  /** The children's markup, concatenated in order. */
  function Markup(cs: seq<Child>): (s: string) {
    if cs == [] then "" else cs[0].markup + Markup(cs[1..])
  }

  /** The children's errors, flattened in field order. */
  function Errors(cs: seq<Child>): (es: seq<ValidationError>) {
    if cs == [] then [] else cs[0].errors + Errors(cs[1..])
  }

  /** The number of occurrences of `c` in `s`. */
  function Count(c: char, s: string): (n: nat) {
    if s == [] then 0 else (if s[0] == c then 1 else 0) + Count(c, s[1..])
  }

  // ---------------------------------------------------------------------------
  // Properties of the serialisation

  /** Every pair contains at least `="` and `"`. */
  lemma PairLength(key: string, value: JsValue)
    ensures |Pair(key, value)| >= 3
    ensures Pair(key, value)[|key|] == '='
  {
  }

  /** Extending the prefix by one property appends that property's pair. */
  lemma PairsStep(a: Attrs, i: nat)
    requires i < |a|
    ensures Pairs(a[..i + 1]) == Pairs(a[..i]) + Pair(a[i].0, a[i].1)
  {
    assert a[..i + 1][..i] == a[..i];
  }

  /** Appending a pair's text piece by piece to the space-led accumulator appends the pair. */
  lemma AppendPair(acc: string, prefix: string, key: string, value: JsValue)
    requires acc == " " + prefix
    ensures acc + key + "=\"" + ToString(value) + "\"" == " " + (prefix + Pair(key, value))
  {
  }

  /** Dropping a lone space from the accumulator gives the attribute string. */
  lemma AttrStringFromAccumulator(a: Attrs, acc: string)
    requires acc == " " + Pairs(a)
    ensures (if acc == " " then "" else acc) == AttrString(a)
  {
    PairsEmpty(a);
    if acc == " " {
      assert Pairs(a) == acc[1..];
    }
  }

  /** The pairs are empty exactly when there are no attributes. */
  lemma {:induction false} PairsEmpty(a: Attrs)
    ensures Pairs(a) == "" <==> a == []
  {
    if a != [] {
      PairLength(a[|a| - 1].0, a[|a| - 1].1);
    }
  }

  /** Without attributes the opening tag is `<kind>`. */
  lemma OpenTagNoAttributes(kind: string)
    ensures OpenTag(kind, []) == "<" + kind + ">"
  {
  }

  /**
   * With attributes the opening tag is `<kind`, one space, the pairs in key
   * order with no separator, then `>`.
   */
  lemma OpenTagWithAttributes(kind: string, a: Attrs)
    requires a != []
    ensures OpenTag(kind, a) == "<" + kind + " " + Pairs(a) + ">"
    ensures OpenTag(kind, a)[|kind| + 1] == ' '
  {
  }

  /** Every opening tag starts with `<kind` and ends with `>`; every closing tag starts with `</`. */
  lemma TagShapes(kind: string, a: Attrs)
    ensures var t := OpenTag(kind, a);
      |t| >= |kind| + 2 && t[..|kind| + 1] == "<" + kind && t[|t| - 1] == '>'
    ensures var e := CloseTag(kind);
      |e| == |kind| + 3 && e[..2] == "</" && e[2..|e| - 1] == kind && e[|e| - 1] == '>'
  {
  }

  /** The closing tag is the attribute-free opening tag with a `/` after the `<`. */
  lemma CloseTagMatchesOpenTag(kind: string)
    ensures CloseTag(kind) == "</" + OpenTag(kind, [])[1..]
  {
  }

  lemma {:induction false} CountAppend(c: char, s: string, t: string)
    ensures Count(c, s + t) == Count(c, s) + Count(c, t)
  {
    if s == [] {
      assert s + t == t;
    } else {
      assert (s + t)[1..] == s[1..] + t;
      CountAppend(c, s[1..], t);
    }
  }

  /** No space in any key or value. */
  predicate NoSpaces(a: Attrs) {
    forall i :: 0 <= i < |a| ==> Count(' ', a[i].0) == 0 && Count(' ', ToString(a[i].1)) == 0
  }

  lemma {:induction false} PairsSpaces(a: Attrs)
    requires NoSpaces(a)
    ensures Count(' ', Pairs(a)) == 0
  {
    if a != [] {
      var last := a[|a| - 1];
      var init := a[..|a| - 1];
      assert NoSpaces(init) by {
        forall i | 0 <= i < |init|
          ensures Count(' ', init[i].0) == 0 && Count(' ', ToString(init[i].1)) == 0
        {
          assert init[i] == a[i];
        }
      }
      PairsSpaces(init);
      CountAppend(' ', last.0, "=\"");
      CountAppend(' ', last.0 + "=\"", ToString(last.1));
      CountAppend(' ', last.0 + "=\"" + ToString(last.1), "\"");
      CountAppend(' ', Pairs(a[..|a| - 1]), Pair(last.0, last.1));
    }
  }

  /**
   * When neither the tag name nor any key or value contains a space, the
   * opening tag holds exactly one space if there are attributes and none
   * otherwise: pairs are not separated from each other.
   */
  lemma OpenTagSpaces(kind: string, a: Attrs)
    requires Count(' ', kind) == 0 && NoSpaces(a)
    ensures Count(' ', OpenTag(kind, a)) == if a == [] then 0 else 1
  {
    PairsSpaces(a);
    CountAppend(' ', "<", kind);
    CountAppend(' ', "<" + kind, AttrString(a));
    CountAppend(' ', "<" + kind + AttrString(a), ">");
    if a != [] {
      CountAppend(' ', " ", Pairs(a));
    }
  }

  // ---------------------------------------------------------------------------
  // Properties of rendering and validation

  lemma {:induction false} MarkupAppend(a: seq<Child>, b: seq<Child>)
    ensures Markup(a + b) == Markup(a) + Markup(b)
  {
    if a == [] {
      assert a + b == b;
    } else {
      assert (a + b)[1..] == a[1..] + b;
      MarkupAppend(a[1..], b);
    }
  }

  lemma {:induction false} ErrorsAppend(a: seq<Child>, b: seq<Child>)
    ensures Errors(a + b) == Errors(a) + Errors(b)
  {
    if a == [] {
      assert a + b == b;
    } else {
      assert (a + b)[1..] == a[1..] + b;
      ErrorsAppend(a[1..], b);
    }
  }

  /** Children that report no errors (a button has no rules) contribute no errors. */
  lemma {:induction false} ErrorsNone(cs: seq<Child>)
    requires forall i :: 0 <= i < |cs| ==> cs[i].errors == []
    ensures Errors(cs) == []
  {
    if cs != [] {
      ErrorsNone(cs[1..]);
    }
  }

  /** Every error in the result is one of some child's errors, and every child's error is in the result. */
  lemma {:induction false} ErrorsMembers(cs: seq<Child>, e: ValidationError)
    ensures e in Errors(cs) <==> exists i :: 0 <= i < |cs| && e in cs[i].errors
  {
    if cs != [] {
      ErrorsMembers(cs[1..], e);
      if e in Errors(cs[1..]) {
        var i :| 0 <= i < |cs[1..]| && e in cs[1..][i].errors;
        assert e in cs[i + 1].errors;
      }
      if exists i :: 0 <= i < |cs| && e in cs[i].errors {
        var i :| 0 <= i < |cs| && e in cs[i].errors;
        if i > 0 {
          assert e in cs[1..][i - 1].errors;
        }
      }
    }
  }

  /** `ErrorsMembers` for every error at once. */
  lemma ErrorsMembersAll(cs: seq<Child>)
    ensures forall e :: e in Errors(cs) <==> exists i :: 0 <= i < |cs| && e in cs[i].errors
  {
    forall e: ValidationError
      ensures e in Errors(cs) <==> exists i :: 0 <= i < |cs| && e in cs[i].errors
    {
      ErrorsMembers(cs, e);
    }
  }

  // ---------------------------------------------------------------------------
  // The widget

  class Group {
    var kind: string
    var fields: seq<Child>
    var required: bool
    var attributes: Attrs

    /** `new Group(type, fields, attributes)`: the children in order, the element name, `required` set. */
    constructor (kind: string, fields: seq<Child>, attributes: Attrs)
      ensures this.kind == kind && this.fields == fields && this.required
      ensures this.attributes == attributes
    {
      this.fields := fields;
      this.kind := kind;
      this.required := true;
      this.attributes := attributes;
    }

    /**
     * `tagStart()`: appends every `key="value"` pair to a string that starts as
     * a single space, then drops that space again if nothing was appended.
     */
    method TagStart() returns (s: string)
      ensures s == OpenTag(kind, attributes)
    {
      var attrs := attributes;
      var attrString := " ";
      var i := 0;
      while i < |attrs|
        invariant 0 <= i <= |attrs|
        invariant attrString == " " + Pairs(attrs[..i])
      {
        var (key, value) := attrs[i];
        PairsStep(attrs, i);
        AppendPair(attrString, Pairs(attrs[..i]), key, value);
        attrString := attrString + key + "=\"" + ToString(value) + "\"";
        i := i + 1;
      }
      assert attrs[..i] == attrs;
      AttrStringFromAccumulator(attrs, attrString);
      if attrString == " " {
        attrString := "";
      }
      s := "<" + kind + attrString + ">";
    }

    /** `tagEnd()`. */
    function TagEnd(): (s: string)
      reads this
      ensures s == CloseTag(kind)
      ensures s == "</" + OpenTag(kind, [])[1..]
    {
      "</" + kind + ">"
    }

    /**
     * `render()`, as the base widget's renderer and the group template produce
     * it: the opening tag, every child's markup in order, the closing tag.
     */
    function Render(): (s: string)
      reads this
      ensures |s| == |OpenTag(kind, attributes)| + |Markup(fields)| + |CloseTag(kind)|
      ensures s[..|OpenTag(kind, attributes)|] == OpenTag(kind, attributes)
      ensures s[|s| - |CloseTag(kind)|..] == CloseTag(kind)
    {
      OpenTag(kind, attributes) + Markup(fields) + TagEnd()
    }

    /** `validate()`, as the base widget's group validation produces it: the children's errors in field order. */
    function Validate(): (es: seq<ValidationError>)
      reads this
      ensures forall e :: e in es <==> exists i :: 0 <= i < |fields| && e in fields[i].errors
    {
      ErrorsMembersAll(fields);
      Errors(fields)
    }
  }

  /**
   * A group's markup starts with its opening tag and ends with its closing
   * tag, and what lies between them is its children's markup in order.
   */
  lemma RenderShape(g: Group)
    ensures var r, o, e := g.Render(), OpenTag(g.kind, g.attributes), CloseTag(g.kind);
      && |r| == |o| + |Markup(g.fields)| + |e|
      && r[..|o|] == o
      && r[|o|..|r| - |e|] == Markup(g.fields)
      && r[|r| - |e|..] == e
  {
  }

  /** A child's markup appears in the group's markup at the offset of the children before it. */
  lemma RenderChildAt(g: Group, i: nat)
    requires i < |g.fields|
    ensures var off := |OpenTag(g.kind, g.attributes)| + |Markup(g.fields[..i])|;
      && off + |g.fields[i].markup| <= |g.Render()|
      && g.Render()[off..off + |g.fields[i].markup|] == g.fields[i].markup
  {
    var f := g.fields;
    assert f == f[..i] + ([f[i]] + f[i + 1..]);
    MarkupAppend(f[..i], [f[i]] + f[i + 1..]);
    assert ([f[i]] + f[i + 1..])[1..] == f[i + 1..];
  }

  /**
   * Two buttons in an attribute-free `div` render as the opening tag, the two
   * buttons' markup in order and the closing tag, and report no errors.
   */
  lemma ButtonsInGroup(g: Group, first: string, second: string)
    requires g.kind == "div" && g.attributes == []
    requires g.fields == [Child(first, []), Child(second, [])]
    ensures g.Render() == "<div>" + first + second + "</div>"
    ensures g.Validate() == []
  {
    var f := g.fields;
    assert f[1..] == [Child(second, [])];
    assert f[1..][1..] == [];
    assert Markup(f[1..]) == second + Markup([]);
    assert second + "" == second;
    assert Errors(f[1..]) == [] + Errors([]);
    assert OpenTag("div", []) == "<div>";
  }

  /** A group whose children report no errors (a group of buttons) reports none. */
  lemma QuietGroup(g: Group)
    requires forall i :: 0 <= i < |g.fields| ==> g.fields[i].errors == []
    ensures g.Validate() == []
  {
    ErrorsNone(g.fields);
  }

  /**
   * A group holding a widget with one error and then a widget with two
   * reports exactly those three errors in that order.
   */
  lemma ValidateOrder(g: Group, a: Child, b: Child)
    requires g.fields == [a, b]
    requires |a.errors| == 1 && |b.errors| == 2
    ensures g.Validate() == [a.errors[0], b.errors[0], b.errors[1]]
  {
    var f := g.fields;
    assert f[1..] == [b] && f[1..][1..] == [];
    assert Errors(f[1..]) == b.errors + Errors([]);
    assert Errors(f) == a.errors + b.errors + [];
    assert a.errors == [a.errors[0]] && b.errors == [b.errors[0], b.errors[1]];
  }

  /** Splitting a group's children splits its errors in the same order. */
  lemma ValidateSplit(g: Group, n: nat)
    requires n <= |g.fields|
    ensures g.Validate() == Errors(g.fields[..n]) + Errors(g.fields[n..])
  {
    assert g.fields == g.fields[..n] + g.fields[n..];
    ErrorsAppend(g.fields[..n], g.fields[n..]);
  }
}
