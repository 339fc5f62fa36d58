# conform widgets: a Dafny model

This project models the per-widget construction and state-update code of
*conform*, a library that builds HTML forms from a tree of widgets. Four
widgets are modelled:

- **RadioChoice** (`radio_choice.dfy`). Construction turns a list of choice
  descriptors into one radio Input per descriptor. Each Input gets:
  - the defaults `type: 'radio'` and the choice's `name`;
  - an `id` chosen by a three-way rule;
  - a Label whose `for` is that id.

  The `value` setter marks exactly the inputs whose value equals the new
  value as `checked` and removes `checked` from all the others. The built-in
  `_fields` rule rejects a value that no input carries.
- **Group** (`group.dfy`). It serialises its opening and closing tags. Its
  construction stores the ordered child list. Rendering places the children's
  markup between the tags. Validation flattens the children's errors in field
  order.
- **Button** (`button.dfy`). It accepts `(attributes, text)` or the
  shorthand `(text)`. The attributes are `type: 'submit'` with the caller's
  attributes merged over it.
- **Select** (`select.dfy`). It keeps an options argument with a truthy `length` as it is and wraps anything else in a one-element list.

Shared pieces:

- `jsvalues.dfy`: JavaScript primitives, truthiness and `String(x)`.
- `attributes.dfy`: a widget's attributes as a JavaScript object kept in
  key-insertion order. Assignment, `delete`, `_.omit` and `_.merge` are
  modelled on it, with their laws.
- `widgets.dfy`: the state of the Input and Label widgets that the core builds.
- `wrappers.dfy`: `Option` and `Result`.

How the code's forms are rendered:

- Widgets whose methods update their own fields are classes: `Choice`,
  `Group`, `Button` and `Select`.
- Each loop of the source is a method with invariants, proved against a
  specification function:
  - the `_.map` that builds the radio inputs;
  - the `_.forEach` of the value setter;
  - the `_fields` rule;
  - the attribute loop of `tagStart`.
- `_.uniqueId`'s process-wide counter is the explicit `IdCounter` object
  passed to the constructor.

## Model

| member | source | states |
|---|---|---|
| RadioChoice.IdCounter.UniqueId | widget/radio-choice.js:34 | `_.uniqueId('el_')` advances the counter by one and returns `el_` followed by the new count |
| RadioChoice.SynthesizeChild | widget/radio-choice.js:22-46 | the map callback builds exactly `ChildAt` for its descriptor and index, and draws one token exactly when neither the descriptor nor the choice has a truthy id |
| RadioChoice.SynthesizeAll | widget/radio-choice.js:21-47 | the map yields `Synthesized`: one input per descriptor, in order, the counter advanced by the tokens drawn; every input's attributes have unique keys |
| RadioChoice.SynthesizedAt | widget/radio-choice.js:21-47 | exactly one input per descriptor; the input at position i is built from descriptor i at index i, the counter standing at the tokens drawn before it |
| RadioChoice.MapFieldsAt | widget/radio-choice.js:21-47 | for any callback, the map over the first n descriptors has n elements, and element i is the callback's result for descriptor i at index i with the counter advanced by the tokens drawn before it |
| RadioChoice.MapFieldsLength | widget/radio-choice.js:21-47 | the map over the first n descriptors has exactly n elements, whatever the callback |
| RadioChoice.SynthesizedUnique | widget/radio-choice.js:21-47 | every synthesised input's attributes have unique keys |
| RadioChoice.DefaultsMerge | widget/radio-choice.js:23-46 | merging the options over `{type: 'radio', name}` keeps `type` and `name` first and unique; their values are those of the options unless `undefined`; every other key is the options' own |
| RadioChoice.FieldOptionsFacts | widget/radio-choice.js:28-40 | the options are the descriptor without `text`, with `id` set to the chosen id; every other key is unchanged |
| RadioChoice.ChildAttributes | widget/radio-choice.js:22-46 | input attributes: `type` defaults to `'radio'` and `name` to the choice's name, and the descriptor's own keys override both; `text` never appears; the key set is the descriptor's minus `text` plus `type`, `name` and `id`; the other values are the descriptor's |
| RadioChoice.ChildIdRule | widget/radio-choice.js:30-44 | an explicit truthy descriptor id is kept. Otherwise the id is the choice's id + `-index`; without a choice id it is `el_N-index` for the next token N. The label's attributes are exactly `{for: id}`, and the id is truthy |
| RadioChoice.ChildId | widget/radio-choice.js:37-46 | the input's `id` attribute equals the id the label points at |
| RadioChoice.ChildUnique | widget/radio-choice.js:46 | the input's attributes have unique keys |
| RadioChoice.ChildLabelText | widget/radio-choice.js:27 | the label text is the descriptor's `text`, or `''` when that is falsy |
| RadioChoice.ChildValue | widget/radio-choice.js:46 | the input's value is the descriptor's `value` |
| RadioChoice.NoTokensWithChoiceId | widget/radio-choice.js:31-35 | a choice with a truthy id never draws a token |
| RadioChoice.TokensBeforeBound | widget/radio-choice.js:30-35 | each descriptor draws at most one token |
| RadioChoice.TokensGrow | widget/radio-choice.js:34 | in a choice without id, a later descriptor without id sees a strictly larger counter |
| RadioChoice.GeneratedLabelId | widget/radio-choice.js:30-37 | for a descriptor without id, the id is `choiceId-index`, or `el_N-index` when the choice has no id |
| RadioChoice.IndexIdsDistinct | widget/radio-choice.js:32 | one prefix followed by two different indices gives two different ids |
| RadioChoice.TokenIdsDistinct | widget/radio-choice.js:34 | two different tokens give different ids, whatever the indices |
| RadioChoice.ChoiceLabelIdsDistinct | widget/radio-choice.js:31-32 | in a choice with an id, descriptors without ids get pairwise distinct ids |
| RadioChoice.TokenLabelIdsDistinct | widget/radio-choice.js:33-35 | in a choice without id, descriptors without ids get pairwise distinct ids |
| RadioChoice.SynthesizedIdAt | widget/radio-choice.js:21-47 | the `id` of the synthesised input at position i is the id chosen for descriptor i |
| RadioChoice.GeneratedIdsDistinct | widget/radio-choice.js:30-44 | when no descriptor has its own id, the synthesised inputs' ids, and so the labels' `for` targets, are pairwise distinct |
| RadioChoice.MarkedAt | widget/radio-choice.js:82-88 | after setting `v`: an input has `checked` iff its value is `v`, and then it is `'checked'`. Every other attribute, the value and the label are unchanged, and keys stay unique |
| RadioChoice.MarkedChecksExactlyMatches | widget/radio-choice.js:81-89 | after setting `v`, the inputs are checked exactly when their value equals `v` |
| RadioChoice.MarkedIdempotent | widget/radio-choice.js:78-89 | setting the same value twice leaves the inputs as setting it once |
| RadioChoice.SingleChecked | widget/radio-choice.js:82-88 | if the inputs' values are pairwise distinct and one equals `v`, exactly that one is checked |
| RadioChoice.NoneChecked | widget/radio-choice.js:82-88 | if no input's value equals `v`, no input is checked |
| RadioChoice.Choice.constructor | widget/radio-choice.js:14-49 | the choice's attributes, one input per descriptor built as `Synthesized`, and the initial value: a truthy `value` attribute is set through the setter; otherwise the inputs stay as synthesised and no value is stored |
| RadioChoice.Choice.Value | widget/radio-choice.js:75-93 | a truthy `v` is stored and every input is marked against it; a falsy `v` changes nothing. Returns the stored value, and keeps "checked iff equal to the stored value" |
| RadioChoice.Choice.FieldsRule | widget/radio-choice.js:51-70 | rejects with `'Please select at least one option'` exactly when no input's value equals the candidate |
| JsValues.NatToStringInjective | widget/radio-choice.js:32 | different indices have different decimal numerals |
| Attributes.MergeGet | widget/radio-choice.js:46 | after `_.merge(base, over)` a key holds `over`'s value, or `base`'s when `over`'s is `undefined` |
| Attributes.MergeKeys | widget/button.js:23 | the merged object's keys are the base's and the source's |
| Attributes.MergeUnique | widget/radio-choice.js:46 | merging keeps keys unique |
| Attributes.MergePrefix | widget/radio-choice.js:46 | merging never moves a key already in the base |
| Attributes.RemoveGet | widget/radio-choice.js:86 | after `delete obj[k]`, `k` reads `undefined` and every other key is unchanged |
| Attributes.RemoveKeys | widget/radio-choice.js:28 | `_.omit(field, ['text'])` drops exactly the key `text` |
| Attributes.SetGet | widget/radio-choice.js:84 | after `field.attr(k, v)`, read as `obj[k] = v`, `k` reads `v` and every other key is unchanged |
| Attributes.SetSet | widget/radio-choice.js:84 | assigning the same value twice is the same as once |
| Attributes.RemoveRemove | widget/radio-choice.js:86 | deleting twice is the same as once |
| GroupWidget.Group.constructor | widget/group.js:10-17 | stores the child list unchanged and in order, stores the element name, sets `required` |
| GroupWidget.Group.TagStart | widget/group.js:20-37 | the loop's result is `OpenTag(type, attributes)` |
| GroupWidget.Group.TagEnd | widget/group.js:39-41 | the closing tag is the attribute-free opening tag with `/` after `<` |
| GroupWidget.PairsEmpty | widget/group.js:29-31 | the pair string is empty exactly when there are no attributes, so the leading space is dropped only then |
| GroupWidget.OpenTagNoAttributes | widget/group.js:29-36 | without attributes the opening tag is `'<' + type + '>'` |
| GroupWidget.OpenTagWithAttributes | widget/group.js:22-36 | with attributes it is `'<' + type + ' '`, then the `key="value"` pairs in key order with no separator, then `'>'` |
| GroupWidget.OpenTagSpaces | widget/group.js:22-36 | if neither the name nor any key or value has a space, the opening tag has one space with attributes and none without |
| GroupWidget.TagShapes | widget/group.js:36-40 | the opening tag starts with `'<' + type` and ends with `'>'`; the closing tag is `'</'`, the name, `'>'` |
| GroupWidget.CloseTagMatchesOpenTag | widget/group.js:36-40 | `tagEnd()` is `'</'` followed by the attribute-free opening tag without its `<` |
| GroupWidget.PairLength | widget/group.js:26 | every pair holds `=` right after its key and has at least three characters |
| GroupWidget.Group.Render | widget/group.js:43-45 | `render()`: the markup starts with the opening tag, ends with the closing tag, and is as long as both tags and the children's markup together. The shape (opening tag, children in order, closing tag) is the assumed behaviour of the base renderer and the group template, which are not part of this model |
| GroupWidget.Group.Validate | widget/group.js:51-53 | `validate()`: an error is reported iff some child reports it. The flattened list of the children's errors in field order is the assumed behaviour of the base validation, which is not part of this model |
| GroupWidget.RenderShape | widget/group.js:43-45 | the markup is the opening tag, then the children's markup in order, then the closing tag |
| GroupWidget.RenderChildAt | widget/group.js:43-45 | each child's markup appears in the group's markup after the opening tag and the children before it |
| GroupWidget.MarkupAppend | widget/group.js:43-45 | the markup of a concatenation of children is the concatenation of their markup |
| GroupWidget.ButtonsInGroup | test/widget_form.js:48-62 | two buttons in a `div` render as `<div>`, the buttons in order, `</div>`, and report no errors |
| GroupWidget.ErrorsAppend | widget/group.js:51-53 | the errors of a concatenation of children are the concatenation of their errors |
| GroupWidget.ErrorsMembers | widget/group.js:51-53 | an error is reported iff some child reports it |
| GroupWidget.ErrorsNone | widget/group.js:51-53 | children without errors contribute none |
| GroupWidget.QuietGroup | test/widget_form.js:170-200 | a group whose children report no errors, such as a group holding one button, reports none |
| GroupWidget.ValidateOrder | widget/group.js:51-53 | children A (one error) then B (two errors) give exactly [A's, B's first, B's second] |
| GroupWidget.ValidateSplit | widget/group.js:51-53 | the errors of the first n children come before those of the rest |
| ButtonWidget.Button.constructor | widget/button.js:5-7 | `new Button(...)` runs `init`: attributes `ButtonAttributes`, text `ButtonText`, which is the corrected `text \|\| ''` rule (see Findings): for a falsy text the program as written throws instead |
| ButtonWidget.Button.Init | widget/button.js:12-27 | resolves the shorthand, merges the caller's attributes over `{type: 'submit'}`, returns the button, and stores the text under the corrected rule `text \|\| ''` (see Findings): a falsy text becomes `''`, where the program as written throws |
| ButtonWidget.ButtonAttributesFacts | widget/button.js:13-23 | `type` is always present: the caller's `type` when given, else `'submit'`. Every caller key keeps the caller's value, no other key is added, and keys are unique |
| ButtonWidget.ShorthandButton | widget/button.js:17-21 | a single string argument is the text, and the attributes are exactly `{type: 'submit'}` |
| ButtonWidget.TwoArgumentButton | widget/button.js:18-24 | with two or more arguments, the first is always the attributes and the second the text |
| ButtonWidget.TextVerbatim | widget/button.js:24 | a truthy text is stored as given |
| ButtonWidget.TextAsWrittenAgrees | widget/button.js:24 | the text expression as written throws exactly for a falsy text, and otherwise agrees with `text \|\| ''` |
| ButtonWidget.ButtonWithoutTextThrows | widget/button.js:24 | `new Button({})` throws as written; with `text \|\| ''` its text is `''` |
| ButtonWidget.StringPropsKeys | widget/button.js:23 | a string merge source contributes one property per character (a Unicode character, not a UTF-16 code unit; see "Left out"), under the distinct keys `"0"`, `"1"`, ... |
| ButtonWidget.SourcePropsUnique | widget/button.js:23 | every merge source contributes unique keys |
| SelectWidget.Select.constructor | widget/select.js:4-6 | `new Select(...)` runs `init` |
| SelectWidget.Select.Init | widget/select.js:13-22 | `options` becomes `NormalizeOptions(options)`; the attributes and the label are passed on unchanged |
| SelectWidget.NormalizeCases | widget/select.js:14-19 | an argument with a truthy `length` is kept as is; anything else becomes a fresh one-element list holding it |
| SelectWidget.NormalizedLength | widget/select.js:14-19 | the stored options always have a truthy `length`, and a length of at least 1 when it is a list or a string |
| SelectWidget.EmptyListWrapped | widget/select.js:14-18 | `[]` becomes `[[]]` |
| SelectWidget.NormalizeIdempotent | widget/select.js:14-19 | normalising again changes nothing |
| SelectWidget.NonEmptyListKept | widget/select.js:14-15 | a non-empty list is kept element for element |

## Left out

- I/O and collaborators:
  - Templates (Jade), module loading and the base widget's own code (`lib/factory`) are not part of this model.
  - A child of a group is therefore given by its rendered markup and its errors. A nested group enters its parent as a child carrying its own `Render()` and `Validate()`.
  - `Group.render` is stated as the shape the form tests fix: opening tag, children, closing tag.
- Asynchronous validation is not modelled. Each rule is a synchronous check that returns an optional message. Promises, the fan-out and fan-in over rules, and the race between overlapping `validate` calls are out of scope.
- Input and Label are given by the state the core reads and writes:
  - attributes;
  - the label's text;
  - the value.

  An input's `value()` is taken to be its `value` attribute at construction; the Input source is not part of this model.
- The base widget's `attr` is read as a property map: `attr(key)` as `Get` (`self.attr('name')` and `self.attr('id')` on the choice), `attr(key, value)` as `Set` (`field.attr('checked', 'checked')`), and `attr(object)` as `Merge` (`label.attr({for: labelId})` and the choice's own attributes).
- `Choice.init` makes four further calls into the base widget:
  - `this.attr(attributes)` is modelled as a merge into an empty attribute object;
  - `this._addFields(fields)` is modelled as storing the descriptors;
  - `this.validation({_fields: ...})` is modelled as the `FieldsRule` method; registering the rule in the base widget's rule map is not modelled;
  - the final `Factory.prototype.init.apply(this, [{}, label])` is modelled as storing the label and leaving the attributes as they are.
- The base initialiser that `Group.init` and `Select.init` call is modelled as storing the attributes (and the label) unchanged.
- The synthesised inputs are values in the choice's `fields` sequence rather than shared objects, so aliasing of an input from outside the choice is not modelled.
- Values are JavaScript primitives only: `undefined`, `null`, booleans, integers and strings. Floating-point numbers and `NaN` are left out. Integers are exact and `===` on them is plain equality, which matches JavaScript only for safe integers (magnitude below 2^53): above that JavaScript rounds, so `2**53 === 2**53 + 1` holds there but not in the model, and `String` writes exponent notation from 1e21 on where `NatToString` writes every digit. Nested objects as attribute values are left out, so `_.merge` is a flat key override.
- Strings are sequences of Unicode characters, not of UTF-16 code units as in JavaScript. For a character outside the Basic Multilingual Plane (an emoji, say) JavaScript counts two units where the model counts one, so `ButtonWidget.StringProps` gives one property per character where lodash copies one per code unit (`new Button('\u{1F600}', 'x')` stores keys `"0"` and `"1"` in the program and only `"0"` in the model), and `SelectWidget.LengthOf` gives a smaller length (its truthiness, the only thing used, is the same).
- JavaScript lists integer-like property names (`"0"`, `"1"`, ...) before all other names, in every object. The model keeps every key in insertion order, so for an object holding such a key the model's order differs from the program's in these places:
  - the order of the pairs `GroupWidget.Group.TagStart` writes (`{b: '1', 0: 'x'}` gives `<div 0="x"b="1">` in the program and `<div b="1"0="x">` in the model);
  - the order of merged attributes (`Attributes.Merge`, and through it `RadioChoice.ChildAt` and `ButtonWidget.ButtonAttributes`);
  - a button whose attribute source is a string, whose characters lodash copies under their indices.

  Only order is affected: which keys are present and what each one holds are the same.
- `_.uniqueId`'s counter is an explicit `IdCounter` object handed to the constructor, not a process-wide global.
- `delete Button.prototype.validate` is not modelled. The method is inherited from the base prototype, so deleting it from `Button.prototype` removes nothing.
- RadioChoice: the `value` setter checks an input exactly when its value equals the new value, so zero or several inputs can be checked. `SingleChecked` gives the condition under which exactly one is checked; `NoneChecked` gives the condition under which none is.
- Group: `tagStart` puts one space before the first pair and nothing between pairs (`OpenTagWithAttributes`, `OpenTagSpaces`).
- GroupWidget.Group.TagStart: does not model lodash's array-like rule. `_.forEach` treats an object whose `length` property is a non-negative integer as array-like and visits the indices `0` to `length - 1` instead of its keys. For attributes `{length: 0}` the program writes `<div>`, while the model writes `<div length="0">`. The model always visits the object's keys.
- SelectWidget.NormalizedLength: does not state "length at least 1" for a plain object kept because of its `length` property, because the code keeps any truthy `length` there (for example `-1` or `'x'`).

## Findings

| source | as written | input that shows it | evidently intended | confidence | as-written member | corrected member |
|---|---|---|---|---|---|---|
| widget/button.js:24 | `this.text = (text \|\| value) \|\| ''` reads the name `value`, which is declared nowhere, whenever `text` is falsy | `new Button({})`: `text` is `undefined`, so evaluating `value` throws a ReferenceError | a falsy text falls back to `''`, as the trailing `\|\| ''` shows | not executed | ButtonWidget.ButtonWithoutTextThrows | ButtonWidget.Button.Init |
