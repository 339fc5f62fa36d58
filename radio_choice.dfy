/**
 * The radio-choice widget: a set of radio inputs synthesised from a list of
 * choice descriptors, each with a label bound to it by id, a value setter
 * that marks exactly the inputs whose value equals the chosen one as
 * `checked`, and a built-in rule that the value must be one of the choices.
 */
module RadioChoice {
  import opened Wrappers
  import opened JsValues
  import opened Attributes
  import opened Widgets

  /** The message of the built-in `_fields` rule. */
  const FieldsMessage := "Please select at least one option"

  /** The process-wide counter behind `_.uniqueId`, made explicit. */
  class IdCounter {
    var last: nat

    constructor (start: nat)
      ensures last == start
    {
      last := start;
    }

    /** `_.uniqueId(prefix)`: increments the counter, then appends it to `prefix`. */
    method UniqueId(prefix: string) returns (id: string)
      modifies this
      ensures last == old(last) + 1
      ensures id == prefix + NatToString(last)
    {
      last := last + 1;
      id := prefix + NatToString(last);
    }
  }

  // ---------------------------------------------------------------------------
  // Synthesis of the radio inputs (the `_.map` over the descriptors)

  /** The token `_.uniqueId('el_')` returns when the counter stands at `counter`. */
  function Token(counter: nat): (s: string) {
    "el_" + NatToString(counter + 1)
  }

  /** A descriptor without a truthy id, in a choice without a truthy id, draws a fresh token. */
  predicate NeedsToken(choice: Attrs, d: Attrs) {
    !Truthy(Get(d, "id")) && !Truthy(Get(choice, "id"))
  }

  /** How many fresh tokens synthesising the inputs for the first `n` descriptors of `ds` draws. */
  function TokensBefore(choice: Attrs, ds: seq<Attrs>, n: nat): (tokens: nat)
    requires n <= |ds|
  {
    if n == 0 then 0
    else TokensBefore(choice, ds, n - 1) + (if NeedsToken(choice, ds[n - 1]) then 1 else 0)
  }

  /** The defaults of every synthesised input: a radio button named like the choice. */
  function Defaults(choice: Attrs): (attrs: Attrs) {
    [("type", Str("radio")), ("name", Get(choice, "name"))]
  }

  /**
   * The id that the input for descriptor `d` at position `index` receives and
   * that its label points at, the id counter standing at `counter`.
   */
  function LabelId(choice: Attrs, d: Attrs, index: nat, counter: nat): (id: JsValue) {
    var fieldOptions := Remove(d, "text");
    if !Truthy(Get(fieldOptions, "id")) then
      if Truthy(Get(choice, "id")) then Str(ToString(Get(choice, "id")) + "-" + NatToString(index))
      else Str(Token(counter) + "-" + NatToString(index))
    else Get(fieldOptions, "id")
  }

  /** The descriptor without `text`, with the generated id filled in when it had none. */
  function FieldOptions(choice: Attrs, d: Attrs, index: nat, counter: nat): (attrs: Attrs) {
    var fieldOptions := Remove(d, "text");
    if !Truthy(Get(fieldOptions, "id")) then Set(fieldOptions, "id", LabelId(choice, d, index, counter))
    else fieldOptions
  }

  /**
   * The radio input synthesised for descriptor `d` at position `index` of a
   * choice with attributes `choice`, the id counter standing at `counter`.
   */
  function ChildAt(choice: Attrs, d: Attrs, index: nat, counter: nat): (c: Input) {
    var fieldLabel := Label([], if Truthy(Get(d, "text")) then Get(d, "text") else Str(""));
    var attrs := Merge(Defaults(choice), FieldOptions(choice, d, index, counter));
    Input(attrs, fieldLabel.(attributes := Merge(fieldLabel.attributes, [("for", LabelId(choice, d, index, counter))])),
          Get(attrs, "value"))
  }

  /** The callback of the `_.map` over the descriptors, closing over the choice's attributes. */
  function Callback(choice: Attrs): (f: (Attrs, nat, nat) -> Input) {
    (d: Attrs, index: nat, counter: nat) => ChildAt(choice, d, index, counter)
  }

  /**
   * `_.map` over the first `n` descriptors with a callback that draws tokens:
   * the element at position `i` is the callback's result for `ds[i]` and `i`,
   * the counter having been advanced by the tokens drawn before it.
   */
  function MapFields(callback: (Attrs, nat, nat) -> Input, choice: Attrs, ds: seq<Attrs>, n: nat, counter: nat): (cs: seq<Input>)
    requires n <= |ds|
  {
    if n == 0 then []
    else MapFields(callback, choice, ds, n - 1, counter) + [callback(ds[n - 1], n - 1, counter + TokensBefore(choice, ds, n - 1))]
  }

  lemma {:induction false} MapFieldsAt(callback: (Attrs, nat, nat) -> Input, choice: Attrs, ds: seq<Attrs>, n: nat, counter: nat, i: nat)
    requires i < n <= |ds|
    ensures |MapFields(callback, choice, ds, n, counter)| == n
    ensures MapFields(callback, choice, ds, n, counter)[i] == callback(ds[i], i, counter + TokensBefore(choice, ds, i))
  {
    if i < n - 1 {
      MapFieldsAt(callback, choice, ds, n - 1, counter, i);
    } else {
      MapFieldsLength(callback, choice, ds, n - 1, counter);
    }
  }

  lemma {:induction false} MapFieldsLength(callback: (Attrs, nat, nat) -> Input, choice: Attrs, ds: seq<Attrs>, n: nat, counter: nat)
    requires n <= |ds|
    ensures |MapFields(callback, choice, ds, n, counter)| == n
  {
    if n > 0 { MapFieldsLength(callback, choice, ds, n - 1, counter); }
  }

  /** The inputs synthesised for all of `ds`, the id counter standing at `counter` before the first. */
  function Synthesized(choice: Attrs, ds: seq<Attrs>, counter: nat): (cs: seq<Input>) {
    MapFields(Callback(choice), choice, ds, |ds|, counter)
  }

  /**
   * Exactly one input per descriptor, in order: the input at position `i` is
   * built from descriptor `i` at index `i`, the counter advanced by the tokens
   * drawn before it.
   */
  lemma SynthesizedAt(choice: Attrs, ds: seq<Attrs>, counter: nat, i: nat)
    requires i < |ds|
    ensures |Synthesized(choice, ds, counter)| == |ds|
    ensures Synthesized(choice, ds, counter)[i] == ChildAt(choice, ds[i], i, counter + TokensBefore(choice, ds, i))
  {
    MapFieldsAt(Callback(choice), choice, ds, |ds|, counter, i);
  }

  /** Every synthesised input's attributes have unique keys. */
  lemma SynthesizedUnique(choice: Attrs, ds: seq<Attrs>, counter: nat)
    requires forall i :: 0 <= i < |ds| ==> UniqueKeys(ds[i])
    ensures var s := Synthesized(choice, ds, counter);
      |s| == |ds| && forall i :: 0 <= i < |s| ==> UniqueKeys(s[i].attributes)
  {
    var s := Synthesized(choice, ds, counter);
    MapFieldsLength(Callback(choice), choice, ds, |ds|, counter);
    forall i | 0 <= i < |s|
      ensures UniqueKeys(s[i].attributes)
    {
      SynthesizedAt(choice, ds, counter, i);
      ChildUnique(choice, ds[i], i, counter + TokensBefore(choice, ds, i));
    }
  }

  lemma DefaultsGet(choice: Attrs, k: string)
    ensures Get(Defaults(choice), k) ==
      if k == "type" then Str("radio") else if k == "name" then Get(choice, "name") else Undefined
  {
    var d := Defaults(choice);
    var rest := [("name", Get(choice, "name"))];
    assert d[1..] == rest && rest[1..] == [];
    assert Get(d, k) == if k == "type" then Str("radio") else Get(rest, k);
    assert Get(rest, k) == if k == "name" then Get(choice, "name") else Get([], k);
  }

  /**
   * Merging a descriptor's options `o` over the defaults: the keys are the two
   * defaults followed by `o`'s own, each holding `o`'s value unless that is
   * `undefined`.
   */
  lemma DefaultsMerge(choice: Attrs, o: Attrs, k: string)
    requires UniqueKeys(o)
    ensures var a := Merge(Defaults(choice), o);
      && UniqueKeys(a)
      && Keys(a) == {"type", "name"} + Keys(o)
      && |a| >= 2 && a[0].0 == "type" && a[1].0 == "name"
      && Get(a, "type") == (if Get(o, "type") != Undefined then Get(o, "type") else Str("radio"))
      && Get(a, "name") == (if Get(o, "name") != Undefined then Get(o, "name") else Get(choice, "name"))
      && (k != "type" && k != "name" ==> Get(a, k) == Get(o, k))
  {
    var d := Defaults(choice);
    var rest := [("name", Get(choice, "name"))];
    assert d[1..] == rest && rest[1..] == [];
    assert Keys(rest) == {"name"} + Keys([]);
    assert Keys(d) == {"type"} + Keys(rest);
    assert UniqueKeys(rest);
    assert UniqueKeys(d);
    DefaultsGet(choice, k);
    DefaultsGet(choice, "type");
    DefaultsGet(choice, "name");
    MergeUnique(d, o);
    MergeKeys(d, o);
    MergePrefix(d, o);
    MergeGet(d, o, "type");
    MergeGet(d, o, "name");
    MergeGet(d, o, k);
  }

  /** A choice with a truthy id never draws a fresh token. */
  lemma {:induction false} NoTokensWithChoiceId(choice: Attrs, ds: seq<Attrs>, n: nat)
    requires Truthy(Get(choice, "id")) && n <= |ds|
    ensures TokensBefore(choice, ds, n) == 0
  {
    if n > 0 { NoTokensWithChoiceId(choice, ds, n - 1); }
  }

  /** Every descriptor draws at most one token. */
  lemma {:induction false} TokensBeforeBound(choice: Attrs, ds: seq<Attrs>, n: nat)
    requires n <= |ds|
    ensures TokensBefore(choice, ds, n) <= n
  {
    if n > 0 { TokensBeforeBound(choice, ds, n - 1); }
  }

  /** The descriptor's own options: everything but `text`, the id filled in when falsy. */
  lemma FieldOptionsFacts(choice: Attrs, d: Attrs, index: nat, counter: nat, k: string)
    requires UniqueKeys(d)
    ensures var o := FieldOptions(choice, d, index, counter);
      && UniqueKeys(o)
      && Keys(o) == (Keys(d) - {"text"}) + {"id"}
      && Get(o, "id") == LabelId(choice, d, index, counter)
      && Get(o, "text") == Undefined
      && (k != "text" && k != "id" ==> Get(o, k) == Get(d, k))
  {
    var fo := Remove(d, "text");
    var id := LabelId(choice, d, index, counter);
    RemoveUnique(d, "text");
    RemoveKeys(d, "text");
    RemoveGet(d, "text", "id");
    RemoveGet(d, "text", k);
    RemoveGet(d, "text", "text");
    if !Truthy(Get(fo, "id")) {
      SetUnique(fo, "id", id);
      SetKeys(fo, "id", id);
      SetGet(fo, "id", id, k);
      SetGet(fo, "id", id, "text");
      SetGet(fo, "id", id, "id");
    } else if !Has(fo, "id") {
      GetMissing(fo, "id");
    }
  }

  /**
   * The attributes of a synthesised input: the defaults `type: 'radio'` and the
   * choice's `name`, overridden by the descriptor's own keys, never `text`,
   * keys unique, `type` and `name` first.
   */
  lemma ChildAttributes(choice: Attrs, d: Attrs, index: nat, counter: nat, k: string)
    requires UniqueKeys(d)
    ensures var a := ChildAt(choice, d, index, counter).attributes;
      && UniqueKeys(a)
      && !Has(a, "text")
      && Keys(a) == (Keys(d) - {"text"}) + {"type", "name", "id"}
      && |a| >= 2 && a[0].0 == "type" && a[1].0 == "name"
      && Get(a, "type") == (if Get(d, "type") != Undefined then Get(d, "type") else Str("radio"))
      && Get(a, "name") == (if Get(d, "name") != Undefined then Get(d, "name") else Get(choice, "name"))
      && (k !in {"text", "type", "name", "id"} ==> Get(a, k) == Get(d, k))
  {
    var o := FieldOptions(choice, d, index, counter);
    FieldOptionsFacts(choice, d, index, counter, k);
    FieldOptionsFacts(choice, d, index, counter, "type");
    FieldOptionsFacts(choice, d, index, counter, "name");
    DefaultsMerge(choice, o, k);
    assert ChildAt(choice, d, index, counter).attributes == Merge(Defaults(choice), o);
  }

  /**
   * The id rule. An explicit truthy descriptor id is kept; otherwise the id is
   * the choice's id followed by `-index`, or, when the choice has no id either,
   * a fresh `el_N` token followed by `-index`. The label's `for` is that id.
   */
  lemma ChildIdRule(choice: Attrs, d: Attrs, index: nat, counter: nat)
    requires UniqueKeys(d)
    ensures var r := ChildAt(choice, d, index, counter);
      var id := Get(r.attributes, "id");
      && (Truthy(Get(d, "id")) ==> id == Get(d, "id"))
      && (!Truthy(Get(d, "id")) && Truthy(Get(choice, "id")) ==>
            id == Str(ToString(Get(choice, "id")) + "-" + NatToString(index)))
      && (NeedsToken(choice, d) ==> id == Str("el_" + NatToString(counter + 1) + "-" + NatToString(index)))
      && r.labelWidget.attributes == [("for", id)]
      && Truthy(id)
  {
    var o := FieldOptions(choice, d, index, counter);
    FieldOptionsFacts(choice, d, index, counter, "id");
    RemoveGet(d, "text", "id");
    DefaultsMerge(choice, o, "id");
    var id := LabelId(choice, d, index, counter);
    assert Truthy(id);
    assert Merge([], [("for", id)]) == [("for", id)];
  }

  /** The label's text is the descriptor's `text`, or `''` when that is falsy. */
  lemma ChildLabelText(choice: Attrs, d: Attrs, index: nat, counter: nat)
    ensures ChildAt(choice, d, index, counter).labelWidget.text == if Truthy(Get(d, "text")) then Get(d, "text") else Str("")
  {
  }

  /** A synthesised input's value is the descriptor's `value`. */
  lemma ChildValue(choice: Attrs, d: Attrs, index: nat, counter: nat)
    requires UniqueKeys(d)
    ensures ChildAt(choice, d, index, counter).value == Get(d, "value")
  {
    ChildAttributes(choice, d, index, counter, "value");
  }

  /** The position of the first `-` in `s`, or `|s|` when there is none. */
  function FirstDash(s: string): (n: nat) {
    if s == [] then 0 else if s[0] == '-' then 0 else 1 + FirstDash(s[1..])
  }

  lemma {:induction false} FirstDashAfterDigits(x: string, y: string)
    requires forall i :: 0 <= i < |x| ==> IsDigit(x[i])
    ensures FirstDash(x + "-" + y) == |x|
  {
    if x != [] {
      assert (x + "-" + y)[1..] == x[1..] + "-" + y;
      FirstDashAfterDigits(x[1..], y);
    }
  }

  /** A numeral, a dash and a rest split back into the same numeral and rest. */
  lemma DashSplit(x: string, y: string, x': string, y': string)
    requires forall i :: 0 <= i < |x| ==> IsDigit(x[i])
    requires forall i :: 0 <= i < |x'| ==> IsDigit(x'[i])
    requires x + "-" + y == x' + "-" + y'
    ensures x == x' && y == y'
  {
    var s := x + "-" + y;
    FirstDashAfterDigits(x, y);
    FirstDashAfterDigits(x', y');
    assert x == s[..|x|] == x';
    assert y == s[|x| + 1..] == y';
  }

  /** Equal strings with a common prefix agree after it. */
  lemma PrefixCancel(p: string, x: string, y: string)
    requires p + x == p + y
    ensures x == y
  {
    assert x == (p + x)[|p|..];
    assert y == (p + y)[|p|..];
  }

  /** Ids built from one prefix and two different indices differ. */
  lemma IndexIdsDistinct(p: string, i: nat, j: nat)
    requires i != j
    ensures p + NatToString(i) != p + NatToString(j)
  {
    if p + NatToString(i) == p + NatToString(j) {
      PrefixCancel(p, NatToString(i), NatToString(j));
      NatToStringInjective(i, j);
    }
  }

  /** After a common prefix, two different numerals followed by a dash give different strings. */
  lemma DashedDistinct(p: string, x: string, y: string, x': string, y': string)
    requires forall i :: 0 <= i < |x| ==> IsDigit(x[i])
    requires forall i :: 0 <= i < |x'| ==> IsDigit(x'[i])
    requires x != x'
    ensures p + x + "-" + y != p + x' + "-" + y'
  {
    assert p + x + "-" + y == p + (x + "-" + y);
    assert p + x' + "-" + y' == p + (x' + "-" + y');
    if p + (x + "-" + y) == p + (x' + "-" + y') {
      PrefixCancel(p, x + "-" + y, x' + "-" + y');
      DashSplit(x, y, x', y');
    }
  }

  /** Ids built from one prefix and two different tokens differ, whatever their indices. */
  lemma TokenIdsDistinct(p: string, a: nat, b: nat, i: nat, j: nat)
    requires a != b
    ensures p + NatToString(a) + "-" + NatToString(i) != p + NatToString(b) + "-" + NatToString(j)
  {
    if NatToString(a) == NatToString(b) {
      NatToStringInjective(a, b);
    }
    DashedDistinct(p, NatToString(a), NatToString(i), NatToString(b), NatToString(j));
  }

  /** The `id` attribute of a synthesised input is the id its label points at. */
  lemma ChildId(choice: Attrs, d: Attrs, index: nat, counter: nat)
    requires UniqueKeys(d)
    ensures Get(ChildAt(choice, d, index, counter).attributes, "id") == LabelId(choice, d, index, counter)
  {
    FieldOptionsFacts(choice, d, index, counter, "id");
    DefaultsMerge(choice, FieldOptions(choice, d, index, counter), "id");
  }

  /** A synthesised input's attributes have unique keys. */
  lemma ChildUnique(choice: Attrs, d: Attrs, index: nat, counter: nat)
    requires UniqueKeys(d)
    ensures UniqueKeys(ChildAt(choice, d, index, counter).attributes)
  {
    FieldOptionsFacts(choice, d, index, counter, "id");
    DefaultsMerge(choice, FieldOptions(choice, d, index, counter), "id");
  }

  /** The id generated for a descriptor without a truthy id of its own. */
  lemma GeneratedLabelId(choice: Attrs, d: Attrs, index: nat, counter: nat)
    requires !Truthy(Get(d, "id"))
    ensures Truthy(Get(choice, "id")) ==>
      LabelId(choice, d, index, counter) == Str(ToString(Get(choice, "id")) + "-" + NatToString(index))
    ensures !Truthy(Get(choice, "id")) ==>
      LabelId(choice, d, index, counter) == Str("el_" + NatToString(counter + 1) + "-" + NatToString(index))
  {
    RemoveGet(d, "text", "id");
  }

  /** In a choice with a truthy id, descriptors without ids get distinct ids. */
  lemma ChoiceLabelIdsDistinct(choice: Attrs, ds: seq<Attrs>, counter: nat, i: nat, j: nat)
    requires Truthy(Get(choice, "id"))
    requires i < j < |ds| && !Truthy(Get(ds[i], "id")) && !Truthy(Get(ds[j], "id"))
    ensures LabelId(choice, ds[i], i, counter + TokensBefore(choice, ds, i)) !=
            LabelId(choice, ds[j], j, counter + TokensBefore(choice, ds, j))
  {
    GeneratedLabelId(choice, ds[i], i, counter + TokensBefore(choice, ds, i));
    GeneratedLabelId(choice, ds[j], j, counter + TokensBefore(choice, ds, j));
    IndexIdsDistinct(ToString(Get(choice, "id")) + "-", i, j);
  }

  /** In a choice without id, descriptors without ids get distinct tokens and so distinct ids. */
  lemma TokenLabelIdsDistinct(choice: Attrs, ds: seq<Attrs>, counter: nat, i: nat, j: nat)
    requires !Truthy(Get(choice, "id"))
    requires i < j < |ds| && !Truthy(Get(ds[i], "id")) && !Truthy(Get(ds[j], "id"))
    ensures LabelId(choice, ds[i], i, counter + TokensBefore(choice, ds, i)) !=
            LabelId(choice, ds[j], j, counter + TokensBefore(choice, ds, j))
  {
    var ci, cj := counter + TokensBefore(choice, ds, i), counter + TokensBefore(choice, ds, j);
    GeneratedLabelId(choice, ds[i], i, ci);
    GeneratedLabelId(choice, ds[j], j, cj);
    TokensGrow(choice, ds, i, j);
    TokenIdsDistinct("el_", ci + 1, cj + 1, i, j);
  }

  /** The id of the synthesised input at position `i`. */
  lemma SynthesizedIdAt(choice: Attrs, ds: seq<Attrs>, counter: nat, i: nat)
    requires i < |ds| && UniqueKeys(ds[i])
    ensures var s := Synthesized(choice, ds, counter);
      |s| == |ds| && Get(s[i].attributes, "id") == LabelId(choice, ds[i], i, counter + TokensBefore(choice, ds, i))
  {
    SynthesizedAt(choice, ds, counter, i);
    ChildId(choice, ds[i], i, counter + TokensBefore(choice, ds, i));
  }

  /**
   * When no descriptor carries its own truthy id, the synthesised inputs' ids
   * (and so the labels' `for` targets) are pairwise distinct.
   */
  lemma GeneratedIdsDistinct(choice: Attrs, ds: seq<Attrs>, counter: nat, i: nat, j: nat)
    requires forall n :: 0 <= n < |ds| ==> UniqueKeys(ds[n]) && !Truthy(Get(ds[n], "id"))
    requires i < j < |ds|
    ensures var s := Synthesized(choice, ds, counter);
      |s| == |ds| && Get(s[i].attributes, "id") != Get(s[j].attributes, "id")
  {
    SynthesizedIdAt(choice, ds, counter, i);
    SynthesizedIdAt(choice, ds, counter, j);
    if Truthy(Get(choice, "id")) {
      ChoiceLabelIdsDistinct(choice, ds, counter, i, j);
    } else {
      TokenLabelIdsDistinct(choice, ds, counter, i, j);
    }
  }

  /** In a choice without id, a later descriptor without id sees a strictly larger counter. */
  lemma {:induction false} TokensGrow(choice: Attrs, ds: seq<Attrs>, i: nat, j: nat)
    requires i < j <= |ds| && NeedsToken(choice, ds[i])
    ensures TokensBefore(choice, ds, i) < TokensBefore(choice, ds, j)
  {
    if j - 1 > i {
      TokensGrow(choice, ds, i, j - 1);
    }
  }

  /**
   * The callback of the `_.map` that builds the inputs: one radio input with its
   * label for descriptor `field` at position `index`, drawing a token from
   * `ids` only when neither the descriptor nor the choice has a truthy id.
   */
  method SynthesizeChild(own: Attrs, field: Attrs, index: nat, ids: IdCounter) returns (child: Input)
    modifies ids
    ensures child == ChildAt(own, field, index, old(ids.last))
    ensures ids.last == old(ids.last) + if NeedsToken(own, field) then 1 else 0
  {
    var defaults := [("type", Str("radio")), ("name", Get(own, "name"))];
    var fieldLabel := Label([], if Truthy(Get(field, "text")) then Get(field, "text") else Str(""));
    var fieldOptions := Remove(field, "text");
    RemoveGet(field, "text", "id");
    var labelId;
    if !Truthy(Get(fieldOptions, "id")) {
      if Truthy(Get(own, "id")) {
        labelId := Str(ToString(Get(own, "id")) + "-" + NatToString(index));
      } else {
        var token := ids.UniqueId("el_");
        labelId := Str(token + "-" + NatToString(index));
      }
      fieldOptions := Set(fieldOptions, "id", labelId);
    } else {
      labelId := Get(fieldOptions, "id");
    }
    fieldLabel := fieldLabel.(attributes := Merge(fieldLabel.attributes, [("for", labelId)]));
    assert labelId == LabelId(own, field, index, old(ids.last));
    assert fieldOptions == FieldOptions(own, field, index, old(ids.last));
    assert defaults == Defaults(own);
    var merged := Merge(defaults, fieldOptions);
    child := Input(merged, fieldLabel, Get(merged, "value"));
  }

  /** The `_.map` over the descriptors: one input per descriptor, in order. */
  method SynthesizeAll(own: Attrs, descriptors: seq<Attrs>, ids: IdCounter) returns (children: seq<Input>)
    requires forall i :: 0 <= i < |descriptors| ==> UniqueKeys(descriptors[i])
    modifies ids
    ensures children == Synthesized(own, descriptors, old(ids.last))
    ensures ids.last == old(ids.last) + TokensBefore(own, descriptors, |descriptors|)
    ensures forall i :: 0 <= i < |children| ==> UniqueKeys(children[i].attributes)
  {
    children := [];
    ghost var c0 := ids.last;
    var index := 0;
    while index < |descriptors|
      invariant 0 <= index <= |descriptors|
      invariant children == MapFields(Callback(own), own, descriptors, index, c0)
      invariant ids.last == c0 + TokensBefore(own, descriptors, index)
    {
      var child := SynthesizeChild(own, descriptors[index], index, ids);
      children := children + [child];
      index := index + 1;
    }
    SynthesizedUnique(own, descriptors, c0);
  }

  // ---------------------------------------------------------------------------
  // The value setter's effect on the inputs

  /** The new state of one input after the choice's value is set to `v`. */
  function Mark(c: Input, v: JsValue): (m: Input) {
    if c.value == v then c.(attributes := Set(c.attributes, "checked", Str("checked")))
    else c.(attributes := Remove(c.attributes, "checked"))
  }

  /** The inputs after the choice's value is set to `v`. */
  function Marked(fs: seq<Input>, v: JsValue): (ms: seq<Input>) {
    seq(|fs|, i requires 0 <= i < |fs| => Mark(fs[i], v))
  }

  /** Exactly the inputs whose value is `v` carry `checked="checked"`; all others have no `checked`. */
  ghost predicate CheckedIffEqual(fs: seq<Input>, v: JsValue) {
    forall i :: 0 <= i < |fs| ==>
      (Has(fs[i].attributes, "checked") <==> fs[i].value == v) &&
      (fs[i].value == v ==> Get(fs[i].attributes, "checked") == Str("checked"))
  }

  /**
   * Setting the value touches only `checked`: it is `'checked'` on inputs whose
   * value equals `v` and absent from all others; every other attribute, the
   * value and the label of every input stay as they were.
   */
  lemma MarkedAt(fs: seq<Input>, v: JsValue, i: nat, k: string)
    requires i < |fs|
    ensures var m := Marked(fs, v);
      && |m| == |fs|
      && m[i].value == fs[i].value && m[i].labelWidget == fs[i].labelWidget
      && (Has(m[i].attributes, "checked") <==> fs[i].value == v)
      && (fs[i].value == v ==> Get(m[i].attributes, "checked") == Str("checked"))
      && (k != "checked" ==> Get(m[i].attributes, k) == Get(fs[i].attributes, k))
      && (k != "checked" ==> (Has(m[i].attributes, k) <==> Has(fs[i].attributes, k)))
      && (UniqueKeys(fs[i].attributes) ==> UniqueKeys(m[i].attributes))
  {
    var a := fs[i].attributes;
    if fs[i].value == v {
      SetGet(a, "checked", Str("checked"), "checked");
      SetGet(a, "checked", Str("checked"), k);
      SetKeys(a, "checked", Str("checked"));
      if UniqueKeys(a) { SetUnique(a, "checked", Str("checked")); }
    } else {
      RemoveGet(a, "checked", k);
      RemoveKeys(a, "checked");
      if UniqueKeys(a) { RemoveUnique(a, "checked"); }
    }
  }

  /** After setting the value to `v`, an input is checked exactly when its value is `v`. */
  lemma MarkedChecksExactlyMatches(fs: seq<Input>, v: JsValue)
    ensures CheckedIffEqual(Marked(fs, v), v)
  {
    forall i | 0 <= i < |fs|
      ensures (Has(Marked(fs, v)[i].attributes, "checked") <==> Marked(fs, v)[i].value == v)
      ensures Marked(fs, v)[i].value == v ==> Get(Marked(fs, v)[i].attributes, "checked") == Str("checked")
    {
      MarkedAt(fs, v, i, "checked");
    }
  }

  /** Setting the same value twice leaves the inputs as setting it once. */
  lemma MarkedIdempotent(fs: seq<Input>, v: JsValue)
    ensures Marked(Marked(fs, v), v) == Marked(fs, v)
  {
    forall i | 0 <= i < |fs|
      ensures Marked(Marked(fs, v), v)[i] == Marked(fs, v)[i]
    {
      var a := fs[i].attributes;
      if fs[i].value == v {
        SetSet(a, "checked", Str("checked"));
      } else {
        RemoveRemove(a, "checked");
      }
    }
  }

  /** When the inputs' values are pairwise distinct and one of them is `v`, exactly that one is checked. */
  lemma SingleChecked(fs: seq<Input>, v: JsValue, i: nat)
    requires forall a, b :: 0 <= a < b < |fs| ==> fs[a].value != fs[b].value
    requires i < |fs| && fs[i].value == v
    ensures forall j :: 0 <= j < |fs| ==> (Has(Marked(fs, v)[j].attributes, "checked") <==> j == i)
  {
    forall j | 0 <= j < |fs|
      ensures Has(Marked(fs, v)[j].attributes, "checked") <==> j == i
    {
      MarkedAt(fs, v, j, "checked");
      if j < i {
        assert fs[j].value != fs[i].value;
      } else if i < j {
        assert fs[i].value != fs[j].value;
      }
    }
  }

  /** When no input's value is `v`, no input is checked. */
  lemma NoneChecked(fs: seq<Input>, v: JsValue)
    requires forall j :: 0 <= j < |fs| ==> fs[j].value != v
    ensures forall j :: 0 <= j < |fs| ==> !Has(Marked(fs, v)[j].attributes, "checked")
  {
    forall j | 0 <= j < |fs|
      ensures !Has(Marked(fs, v)[j].attributes, "checked")
    {
      MarkedAt(fs, v, j, "checked");
    }
  }

  // ---------------------------------------------------------------------------
  // The widget

  class Choice {
    var attributes: Attrs
    var fields: seq<Input>
    var storedValue: JsValue
    var ownLabel: Option<Label>

    /**
     * Every input's attributes have unique keys, and once a truthy value has
     * been set the inputs are checked exactly when their value equals it.
     */
    ghost predicate Valid()
      reads this
    {
      && (forall i :: 0 <= i < |fields| ==> UniqueKeys(fields[i].attributes))
      && (Truthy(storedValue) ==> CheckedIffEqual(fields, storedValue))
    }

    /**
     * `new Choice(attributes, fields, label)`: the choice's attributes, one radio
     * input per descriptor, the initial value from the `value` attribute, and
     * the choice's own label.
     */
    constructor (attributes: Attrs, descriptors: seq<Attrs>, ownLabel: Option<Label>, ids: IdCounter)
      requires forall i :: 0 <= i < |descriptors| ==> UniqueKeys(descriptors[i])
      modifies ids
      ensures Valid()
      ensures this.attributes == Merge([], attributes) && this.ownLabel == ownLabel
      ensures ids.last == old(ids.last) + TokensBefore(this.attributes, descriptors, |descriptors|)
      ensures Truthy(Get(this.attributes, "value")) ==>
        storedValue == Get(this.attributes, "value") &&
        fields == Marked(Synthesized(this.attributes, descriptors, old(ids.last)), storedValue)
      ensures !Truthy(Get(this.attributes, "value")) ==>
        storedValue == Undefined && fields == Synthesized(this.attributes, descriptors, old(ids.last))
    {
      var own := Merge([], attributes);
      var children := SynthesizeAll(own, descriptors, ids);
      this.attributes := own;
      this.fields := children;
      this.storedValue := Undefined;
      this.ownLabel := ownLabel;
      new;
      var _ := Value(if Truthy(Get(this.attributes, "value")) then Get(this.attributes, "value") else Undefined);
    }

    /**
     * `choice.value(v)`: a truthy `v` becomes the stored value and each input is
     * marked checked or unchecked against it; a falsy `v` changes nothing.
     * Returns the stored value either way.
     */
    method Value(v: JsValue) returns (r: JsValue)
      requires Valid()
      modifies this`fields, this`storedValue
      ensures Valid()
      ensures Truthy(v) ==> storedValue == v && fields == Marked(old(fields), v)
      ensures !Truthy(v) ==> storedValue == old(storedValue) && fields == old(fields)
      ensures r == storedValue
    {
      if Truthy(v) {
        storedValue := v;
        if |fields| > 0 {
          var i := 0;
          while i < |fields|
            invariant 0 <= i <= |fields| == |old(fields)|
            invariant storedValue == v
            invariant forall j :: 0 <= j < i ==> fields[j] == Mark(old(fields)[j], v)
            invariant forall j :: i <= j < |fields| ==> fields[j] == old(fields)[j]
          {
            var field := fields[i];
            if field.value == storedValue {
              fields := fields[i := field.(attributes := Set(field.attributes, "checked", Str("checked")))];
            } else {
              fields := fields[i := field.(attributes := Remove(field.attributes, "checked"))];
            }
            i := i + 1;
          }
        }
        assert fields == Marked(old(fields), v);
        MarkedChecksExactlyMatches(old(fields), v);
        forall i | 0 <= i < |fields|
          ensures UniqueKeys(fields[i].attributes)
        {
          MarkedAt(old(fields), v, i, "checked");
        }
      }
      r := storedValue;
    }

    /**
     * The built-in `_fields` validation rule: it fails with its message exactly
     * when no input's value equals the candidate.
     */
    method FieldsRule(candidate: JsValue) returns (error: Option<string>)
      ensures error.None? <==> exists i :: 0 <= i < |fields| && fields[i].value == candidate
      ensures error.Some? ==> error.value == FieldsMessage
    {
      var matched := false;
      var i := 0;
      while i < |fields|
        invariant 0 <= i <= |fields|
        invariant !matched
        invariant forall j :: 0 <= j < i ==> fields[j].value != candidate
      {
        if fields[i].value == candidate {
          matched := true;
          break;
        }
        i := i + 1;
      }
      if !matched {
        error := Some(FieldsMessage);
      } else {
        error := None;
      }
    }
  }
}
