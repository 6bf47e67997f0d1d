/** The injector component's state: the template it was opened on, the variables extracted from
    it, and the map of values typed so far. */
module Injector {
  import opened Chars
  import opened Records
  import opened Placeholders
  import opened Rendering

  class FillSession {
    const content: string
    const variables: seq<string>
    var values: map<string, string>

    /** `variables` is the memoised extraction of `content`. */
    ghost predicate Valid()
      reads this
    {
      variables == Variables(content)
    }

    /** Opening the injector on a template: the variables are extracted and no value is set. */
    constructor(content: string)
      ensures Valid() && this.content == content && values == map[]
    {
      var vs := ExtractVariables(content);
      this.content := content;
      variables := vs;
      values := map[];
    }

    /** The component renders nothing when the template has no variables; otherwise it shows one
        input per variable. It is shown exactly when the template passes the selection check. */
    function Shown(): (r: bool)
      reads this
      requires Valid()
      ensures r <==> HasVariables(content)
    {
      HasVariablesIffExtracted(content);
      |variables| > 0
    }

    /** The text of the input for `v`: `values[v] || ''` as the input displays it. An own key
        shows its text; an untyped `__proto__` finds the prototype object, which displays as
        `[object Object]`; the other inherited members are functions, which an input displays
        as empty, like a missing key. */
    function InputValue(v: string): string
      reads this
    {
      if v in values then values[v] else if v == "__proto__" then "[object Object]" else ""
    }

    /** The reset effect: every value is cleared, so every input is empty except an input for
        `__proto__`, which falls back to the prototype object. */
    method Reset()
      modifies this
      ensures values == map[]
      ensures InputValue("__proto__") == "[object Object]"
      ensures forall v :: v != "__proto__" ==> InputValue(v) == ""
    {
      values := map[];
    }

    /** Typing into the input for `v`: only key `v` of the map changes, and the input shows what
        was typed. */
    method SetValue(v: string, text: string)
      requires v in variables
      modifies this
      ensures values == old(values)[v := text]
      ensures InputValue(v) == text
      ensures forall w :: w != v ==> InputValue(w) == old(InputValue(w))
    {
      values := values[v := text];
    }

    /** The rendering shown as the preview and passed to the parent on every change; `None`
        when a pass throws, and the component fails instead of rendering. */
    method Current() returns (text: Option<string>)
      requires Valid()
      ensures text == Rendered(content, Variables(content), values)
      ensures NoInheritedLookup(content, values) && Safe(values) && (WellFormed(content) || Blank(values)) ==>
        text == Some(Fill(content, values))
      ensures NoInheritedLookup(content, values) && Blank(values) ==> text == Some(Canonicalize(content))
    {
      text := Render(content, variables, values);
      if NoInheritedLookup(content, values) && Blank(values) {
        BlankRendersCanonical(content, values);
      }
    }

    /** A key pressed in one of the inputs, which exist only when the rendering did not throw:
        Enter completes with the current rendering, with no check that the values are filled in;
        any other key does nothing. */
    method KeyDown(key: string) returns (completed: Option<string>)
      requires Valid() && Rendered(content, Variables(content), values).Some?
      ensures key == "Enter" ==> completed == Rendered(content, Variables(content), values)
      ensures key != "Enter" ==> completed == None
    {
      if key == "Enter" {
        completed := Current();
      } else {
        completed := None;
      }
    }

    /** The copy button, which exists only when the rendering did not throw, completes with the
        current rendering, exactly as Enter does. */
    method ClickCopy() returns (completed: string)
      requires Valid() && Rendered(content, Variables(content), values).Some?
      ensures Some(completed) == Rendered(content, Variables(content), values)
    {
      var text := Current();
      completed := text.value;
    }
  }
}
