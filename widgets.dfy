/**
 * The leaf widgets that the core builds but whose own code is not part of
 * this model (Input and Label): each is represented by the state the core
 * reads and writes.
 */
module Widgets {
  import opened JsValues
  import opened Attributes

  /** A Label widget: its attributes (the core sets `for`) and its text. */
  datatype Label = Label(attributes: Attrs, text: JsValue)

  /**
   * An Input widget: its attributes, its owned label, and what its `value()`
   * getter returns. The core only compares that value; it never sets it.
   */
  datatype Input = Input(attributes: Attrs, labelWidget: Label, value: JsValue)
}
