/** The presentation rules of the interaction panel: how a function is
    tagged in the selector, which ABI parameters become inputs, and when
    the action and authorization-witness buttons are enabled. */
module Interact {
  import opened Wrappers
  import opened JsStrings
  import opened JsValues
  import opened Abi

  // ---- FunctionSelector ----

  /** `private` when the attributes include it, `public` otherwise. */
  function FunctionType(fn: FunctionAbi): (t: string)
    ensures t == "private" <==> HasAttribute(fn, "private")
    ensures t == "private" || t == "public"
  {
    if HasAttribute(fn, "private") then "private" else "public"
  }

  /** `is_unconstrained === true`: only the boolean `true` counts. */
  predicate IsUnconstrained(fn: FunctionAbi) {
    fn.isUnconstrained == Some(JsBool(true))
  }

  /** The attributes other than `private` and `public`, in order. */
  function OtherTags(attrs: seq<string>): (r: seq<string>)
    ensures |r| <= |attrs|
    ensures forall t :: t in r <==> t in attrs && t != "private" && t != "public"
  {
    if attrs == [] then []
    else (if attrs[0] != "private" && attrs[0] != "public" then [attrs[0]] else []) + OtherTags(attrs[1..])
  }

  /** The filter keeps the attributes' order: it distributes over
      concatenation. */
  lemma {:induction false} OtherTagsAppend(a: seq<string>, b: seq<string>)
    ensures OtherTags(a + b) == OtherTags(a) + OtherTags(b)
  {
    if a == [] {
      assert a + b == b;
    } else {
      var keep := if a[0] != "private" && a[0] != "public" then [a[0]] else [];
      assert (a + b)[0] == a[0];
      assert (a + b)[1..] == a[1..] + b;
      assert OtherTags(a + b) == keep + OtherTags(a[1..] + b);
      OtherTagsAppend(a[1..], b);
      assert OtherTags(a) == keep + OtherTags(a[1..]);
    }
  }

  /** Each attribute is kept or dropped on its own. */
  lemma OtherTagsSingle(t: string)
    ensures OtherTags([t]) == if t == "private" || t == "public" then [] else [t]
  {
    assert [t][1..] == [];
  }

  /** `additionalTags`: `undefined` (here `""`, which `filter(Boolean)`
      treats alike) when the function has no attributes. */
  function ExtraTags(fn: FunctionAbi): string {
    match fn.customAttributes
    case None => ""
    case Some(attrs) => Join(OtherTags(attrs), ", ")
  }

  /** `[functionType, unconstrained?, additionalTags].filter(Boolean).join(', ')`. */
  function DisplayTags(fn: FunctionAbi): string {
    Join(NonEmpty([FunctionType(fn), if IsUnconstrained(fn) then "unconstrained" else "", ExtraTags(fn)]), ", ")
  }

  /** Joining three parts, of which the first is non-empty, after
      dropping the empty ones. */
  lemma JoinNonEmpty3(t: string, u: string, e: string)
    requires t != ""
    ensures Join(NonEmpty([t, u, e]), ", ") ==
            t + (if u != "" then ", " + u else "") + (if e != "" then ", " + e else "")
  {
    assert NonEmpty([e]) == (if e == "" then [] else [e]) by {
      assert [e][1..] == [];
    }
    assert NonEmpty([u, e]) == (if u == "" then [] else [u]) + NonEmpty([e]) by {
      assert [u, e][1..] == [e];
    }
    assert NonEmpty([t, u, e]) == [t] + NonEmpty([u, e]) by {
      assert [t, u, e][1..] == [u, e];
    }
    var parts := NonEmpty([t, u, e]);
    if u != "" && e != "" {
      assert parts == [t, u, e];
      assert Join(parts, ", ") == t + ", " + Join([u, e], ", ") by { assert parts[1..] == [u, e]; }
      assert Join([u, e], ", ") == u + ", " + Join([e], ", ") by { assert [u, e][1..] == [e]; }
    } else if u != "" || e != "" {
      var x := if u != "" then u else e;
      assert parts == [t, x];
      assert Join(parts, ", ") == t + ", " + Join([x], ", ") by { assert parts[1..] == [x]; }
    } else {
      assert parts == [t];
    }
  }

  /** The tags read: the visibility first, then `unconstrained` when the
      flag is `true`, then the remaining attributes, each part separated
      by `, ` and no empty part shown. */
  lemma DisplayTagsShape(fn: FunctionAbi)
    ensures DisplayTags(fn) ==
            FunctionType(fn)
            + (if IsUnconstrained(fn) then ", unconstrained" else "")
            + (if ExtraTags(fn) != "" then ", " + ExtraTags(fn) else "")
  {
    JoinNonEmpty3(FunctionType(fn), if IsUnconstrained(fn) then "unconstrained" else "", ExtraTags(fn));
  }

  /** The tags always begin with the visibility, so they are never empty. */
  lemma DisplayTagsStart(fn: FunctionAbi)
    ensures StartsWith(DisplayTags(fn), FunctionType(fn))
    ensures DisplayTags(fn) != ""
  {
    DisplayTagsShape(fn);
    var t := FunctionType(fn);
    var rest := (if IsUnconstrained(fn) then ", unconstrained" else "")
                + (if ExtraTags(fn) != "" then ", " + ExtraTags(fn) else "");
    assert DisplayTags(fn) == t + rest;
    assert (t + rest)[..|t|] == t;
  }

  /** A `view` function shows `view` among its tags; it is the same
      attribute that disables Send. */
  lemma ViewIsTagged(fn: FunctionAbi)
    requires HasAttribute(fn, "view")
    ensures "view" in OtherTags(fn.customAttributes.value)
    ensures ExtraTags(fn) != ""
  {
    var tags := OtherTags(fn.customAttributes.value);
    assert "view" in tags;
    if |tags| >= 2 {
      assert ExtraTags(fn) == tags[0] + ", " + Join(tags[1..], ", ");
    }
  }

  /** `{fn.name} ({displayTags})`. */
  function OptionLabel(fn: FunctionAbi): string {
    fn.name + " (" + DisplayTags(fn) + ")"
  }

  datatype SelectorView =
    | NoFunctionsAlert
    | FunctionSelect(value: string, options: seq<(string, string)>)

  /** FunctionSelector: an alert for an empty list; otherwise a
      placeholder option, then one option per function. */
  function FunctionSelectorView(fns: seq<FunctionAbi>, selected: Option<string>): SelectorView {
    if |fns| == 0 then NoFunctionsAlert
    else FunctionSelect(selected.GetOr(""),
                        [("", "Select a function")] + seq(|fns|, i requires 0 <= i < |fns| => (fns[i].name, OptionLabel(fns[i]))))
  }

  /** The alert shows exactly when no function passes the filter; an
      option's value is the function's name, so choosing it selects that
      function, and its label starts with the name and visibility. */
  lemma SelectorOptions(fns: seq<FunctionAbi>, selected: Option<string>)
    ensures FunctionSelectorView(fns, selected).NoFunctionsAlert? <==> fns == []
    ensures fns != [] ==>
            var v := FunctionSelectorView(fns, selected);
            && v.options[0] == ("", "Select a function")
            && |v.options| == |fns| + 1
            && (forall i :: 0 <= i < |fns| ==>
                  v.options[i + 1].0 == fns[i].name
                  && StartsWith(v.options[i + 1].1, fns[i].name + " (" + FunctionType(fns[i])))
            && (selected.None? ==> v.value == "")
  {
    if fns != [] {
      var v := FunctionSelectorView(fns, selected);
      forall i | 0 <= i < |fns|
        ensures StartsWith(v.options[i + 1].1, fns[i].name + " (" + FunctionType(fns[i]))
      {
        assert v.options[i + 1].1 == OptionLabel(fns[i]);
        OptionLabelStart(fns[i]);
      }
    }
  }

  /** An option's label starts with the function's name and type. */
  lemma OptionLabelStart(fn: FunctionAbi)
    ensures StartsWith(OptionLabel(fn), fn.name + " (" + FunctionType(fn))
  {
    DisplayTagsStart(fn);
    var d := DisplayTags(fn);
    var t := FunctionType(fn);
    var head := fn.name + " (";
    assert d[..|t|] == t;
    assert OptionLabel(fn) == head + d + ")";
    assert (head + d + ")")[..|head + t|] == head + d[..|t|];
  }

  // ---- FunctionParametersForm ----

  /** `parameters.filter((param, index) => !(isPrivate && index === 0 && param.name === 'inputs'))`,
      with `index` the position of `ps[0]` in the whole list. */
  function KeepParameters(ps: seq<AbiParameter>, isPrivate: bool, index: nat): (kept: seq<AbiParameter>)
    ensures |kept| <= |ps|
  {
    if ps == [] then []
    else (if !(isPrivate && index == 0 && ps[0].name == "inputs") then [ps[0]] else [])
         + KeepParameters(ps[1..], isPrivate, index + 1)
  }

  /** `fnAbi?.abi?.parameters || []`. */
  function DeclaredParameters(fn: Option<FunctionAbi>): seq<AbiParameter> {
    if fn.Some? && fn.value.abi.Some? && fn.value.abi.value.parameters.Some?
    then fn.value.abi.value.parameters.value
    else []
  }

  /** The parameters that get an input. */
  function FormParameters(fn: Option<FunctionAbi>): seq<AbiParameter> {
    KeepParameters(DeclaredParameters(fn), fn.Some? && HasAttribute(fn.value, "private"), 0)
  }

  /** Past the first position nothing is dropped. */
  lemma {:induction false} KeepAfterFirst(ps: seq<AbiParameter>, isPrivate: bool, index: nat)
    requires index >= 1
    ensures KeepParameters(ps, isPrivate, index) == ps
  {
    if ps != [] {
      KeepAfterFirst(ps[1..], isPrivate, index + 1);
    }
  }

  /** The form drops exactly one parameter — the first, when the function
      is private and that parameter is named `inputs` (the implicit
      context argument) — and keeps every other in order, including an
      `inputs` at a later position. */
  lemma FormParametersClosed(fn: Option<FunctionAbi>)
    ensures var ps := DeclaredParameters(fn);
            FormParameters(fn) ==
            if fn.Some? && HasAttribute(fn.value, "private") && |ps| > 0 && ps[0].name == "inputs"
            then ps[1..] else ps
  {
    var ps := DeclaredParameters(fn);
    if ps != [] {
      KeepAfterFirst(ps[1..], fn.Some? && HasAttribute(fn.value, "private"), 1);
      assert ps == [ps[0]] + ps[1..];
    }
  }

  /** `callParams[fnName]?.[param.name] || ''`. */
  function ShownCallValue(callParams: map<string, map<string, string>>, fnName: string, name: string): (shown: string)
    ensures fnName in callParams && name in callParams[fnName] ==> shown == callParams[fnName][name]
    ensures !(fnName in callParams && name in callParams[fnName]) ==> shown == ""
  {
    if fnName in callParams && name in callParams[fnName] && callParams[fnName][name] != ""
    then callParams[fnName][name] else ""
  }

  datatype FormInput = FormInput(name: string, kind: string, value: string)

  datatype FormView = NoParameters | Inputs(inputs: seq<FormInput>)

  function FormViewOf(fn: Option<FunctionAbi>, fnName: string, callParams: map<string, map<string, string>>): FormView {
    var ps := FormParameters(fn);
    if |ps| == 0 then NoParameters
    else Inputs(seq(|ps|, i requires 0 <= i < |ps| =>
                 FormInput(ps[i].name, InputKind(ps[i].typ.kind), ShownCallValue(callParams, fnName, ps[i].name))))
  }

  /** "No parameters for this function." shows exactly when nothing is
      left after the drop — so a private function whose only parameter is
      `inputs` shows it — and otherwise there is one input per kept
      parameter, numeric exactly for integers. */
  lemma FormViewInputs(fn: Option<FunctionAbi>, fnName: string, callParams: map<string, map<string, string>>)
    ensures var ps := DeclaredParameters(fn);
            var v := FormViewOf(fn, fnName, callParams);
            && (v.NoParameters? <==>
                  (ps == [] || (|ps| == 1 && ps[0].name == "inputs" && fn.Some? && HasAttribute(fn.value, "private"))))
            && (v.Inputs? ==>
                  var kept := FormParameters(fn);
                  && |v.inputs| == |kept|
                  && forall i :: 0 <= i < |kept| ==>
                       v.inputs[i].name == kept[i].name
                       && (v.inputs[i].kind == "number" <==> kept[i].typ.kind == "integer"))
  {
    FormParametersClosed(fn);
  }

  // ---- ActionButtons ----

  /** `selectedFunctionAbi?.custom_attributes?.includes('view')`. */
  predicate IsView(fn: Option<FunctionAbi>) {
    fn.Some? && HasAttribute(fn.value, "view")
  }

  datatype ButtonStates = ButtonStates(simulateDisabled: bool, sendDisabled: bool, authwitDisabled: bool)

  function Buttons(isSimulating: bool, isSending: bool, fn: Option<FunctionAbi>): ButtonStates {
    ButtonStates(isSimulating, isSending || IsView(fn), false)
  }

  /** A view function can be simulated but never sent; simulating does not
      depend on the function; the AuthWit toggle is always available. */
  lemma ButtonRules(isSimulating: bool, isSending: bool, fn: Option<FunctionAbi>, other: Option<FunctionAbi>)
    ensures IsView(fn) ==> Buttons(isSimulating, isSending, fn).sendDisabled
    ensures !isSending ==> (Buttons(isSimulating, isSending, fn).sendDisabled <==> IsView(fn))
    ensures Buttons(isSimulating, isSending, fn).simulateDisabled == Buttons(isSimulating, !isSending, other).simulateDisabled
    ensures !Buttons(isSimulating, isSending, fn).authwitDisabled
  {
  }

  // ---- AuthwitCreationForm ----

  /** `disabled={!caller || !alias || creating}`. */
  predicate CreateDisabled(caller: string, alias: string, creating: bool) {
    caller == "" || alias == "" || creating
  }

  predicate IsHexDigit(c: char) {
    ('0' <= c <= '9') || ('a' <= c <= 'f') || ('A' <= c <= 'F')
  }

  /** The text of an Aztec address: `0x` and 64 hex digits. */
  predicate IsAddressText(s: string) {
    |s| == 66 && s[..2] == "0x" && forall i :: 2 <= i < 66 ==> IsHexDigit(s[i])
  }

  /** Create is offered only once both a caller and an alias are entered,
      and not while a witness is being created. The caller text matters
      only through being non-empty: although the field asks for an Aztec
      address, text that is not one enables Create just as well. */
  lemma CreateRule(caller: string, alias: string, creating: bool)
    ensures !CreateDisabled(caller, alias, creating) <==> |caller| > 0 && |alias| > 0 && !creating
    ensures forall other: string :: (other == "") == (caller == "") ==>
              CreateDisabled(other, alias, creating) == CreateDisabled(caller, alias, creating)
    ensures alias != "" && !creating ==>
              exists c: string :: !IsAddressText(c) && !CreateDisabled(c, alias, creating)
  {
    if alias != "" && !creating {
      assert !IsAddressText("x") && !CreateDisabled("x", alias, creating);
    }
  }
}
