/**
 * The form shown for a Model Context Protocol elicitation: which fields
 * it shows, whether it is a single yes/no question that submits itself,
 * and what each control holds and reports. The rendering itself is
 * reduced to the values the controls are built from.
 */
module ElicitationPrompt {
  import opened Wrappers
  import opened Strings
  import opened OrderedDict

  const ChatIdField := "chatId"
  const BooleanType := "boolean"

  /** One property of the requested schema (`{type, description, format}`); each part may be absent. */
  datatype PropertyDef = PropertyDef(kind: Option<string>, description: Option<string>, format: Option<string>)

  /** `schema.required`: an array of names, or anything else. */
  datatype Required = Names(names: seq<string>) | NotAnArray

  datatype Schema = Schema(properties: Option<Dict<Option<PropertyDef>>>, required: Option<Required>)

  /** An elicitation request as the chat screen holds it. */
  datatype Elicitation = Elicitation(
    elicitationId: string,
    chatId: string,
    name: string,
    message: Option<string>,
    requestedSchema: Option<Schema>)

  /** `(elicitation.requestedSchema || {}).properties || {}`. */
  function Properties(e: Elicitation): (props: Dict<Option<PropertyDef>>)
    ensures e.requestedSchema.None? ==> props == []
    ensures e.requestedSchema.Some? && e.requestedSchema.value.properties.None? ==> props == []
  {
    if e.requestedSchema.Some? && e.requestedSchema.value.properties.Some? then e.requestedSchema.value.properties.value
    else []
  }

  /** `Array.isArray(schema.required) ? schema.required : []`. */
  function RequiredList(e: Elicitation): (names: seq<string>)
    ensures e.requestedSchema.None? || e.requestedSchema.value.required != Some(Names(names)) ==> names == []
  {
    if e.requestedSchema.Some? && e.requestedSchema.value.required.Some? && e.requestedSchema.value.required.value.Names?
    then e.requestedSchema.value.required.value.names
    else []
  }

  /** The entries other than `chatId`, in order: the fields the form shows. */
  function VisibleFields<V(!new)>(props: Dict<V>): (r: Dict<V>)
    ensures |r| <= |props|
    ensures ChatIdField !in Keys(r)
    ensures forall e :: e in r <==> e in props && e.0 != ChatIdField
  {
    if props == [] then []
    else
      var init, last := props[..|props| - 1], props[|props| - 1];
      assert props == init + [last];
      VisibleFields(init) + (if last.0 == ChatIdField then [] else [last])
  }

  /** `chatId` is hidden, and hidden alone: the form shows one field fewer exactly when the schema has it. */
  lemma {:induction false} VisibleFieldsCount<V(!new)>(props: Dict<V>)
    requires UniqueKeys(props)
    ensures |VisibleFields(props)| == |props| - (if ChatIdField in Keys(props) then 1 else 0)
  {
    if props != [] {
      var init, last := props[..|props| - 1], props[|props| - 1];
      assert props == init + [last];
      UniqueSnoc(init, last);
      KeysSnoc(init, last);
      VisibleFieldsCount(init);
    }
  }

  /** The type of a property, if the property and its type are there (`propertyDef?.type`). */
  function KindOf(def: Option<PropertyDef>): Option<string> {
    if def.Some? then def.value.kind else None
  }

  /** `isBooleanOnlyPrompt`. */
  function IsBooleanOnly(e: Elicitation): bool {
    var fields := VisibleFields(Properties(e));
    |fields| == 1 && KindOf(fields[0].1) == Some(BooleanType)
  }

  /** A prompt is a single yes/no question exactly when one property besides `chatId` exists, and it is boolean. */
  lemma BooleanOnlyIff(e: Elicitation)
    requires UniqueKeys(Properties(e))
    ensures IsBooleanOnly(e) <==>
      |Properties(e)| - (if ChatIdField in Keys(Properties(e)) then 1 else 0) == 1 &&
      exists i :: 0 <= i < |Properties(e)| && Properties(e)[i].0 != ChatIdField && KindOf(Properties(e)[i].1) == Some(BooleanType)
  {
    var props := Properties(e);
    var fields := VisibleFields(props);
    VisibleFieldsCount(props);
    if |fields| == 1 {
      assert fields[0] in fields;
      if exists i :: 0 <= i < |props| && props[i].0 != ChatIdField && KindOf(props[i].1) == Some(BooleanType) {
        var i :| 0 <= i < |props| && props[i].0 != ChatIdField && KindOf(props[i].1) == Some(BooleanType);
        assert props[i] in props;
        assert props[i] in fields;
      }
    }
  }

  // ---------------------------------------------------------------------
  // The controls

  /** `values[name] ?? ''`: what a text field shows. */
  function FieldValue(values: Dict<string>, name: string): (v: string)
    ensures name !in Keys(values) ==> v == ""
    ensures Get(values, name).Some? ==> v == Get(values, name).value
  {
    Get(values, name).GetOr("")
  }

  /** The placeholder of a text field: the description, else "Format: " and the format, else "". */
  function PlaceholderText(def: Option<PropertyDef>): (p: string)
    ensures def.Some? && Truthy(def.value.description) ==> p == def.value.description.value
    ensures def.Some? && !Truthy(def.value.description) && Truthy(def.value.format) ==> p == "Format: " + def.value.format.value
    ensures def.None? || (!Truthy(def.value.description) && !Truthy(def.value.format)) ==> p == ""
  {
    if def.Some? && Truthy(def.value.description) then def.value.description.value
    else if def.Some? && Truthy(def.value.format) then "Format: " + def.value.format.value
    else ""
  }

  /** The three answers to a boolean question. */
  datatype Answer = Cancel | Decline | Accept

  /** The token a button reports. */
  function Token(a: Answer): string {
    match a
    case Cancel => "cancel"
    case Decline => "decline"
    case Accept => "accept"
  }

  /** The tokens are exactly "cancel", "decline" and "accept", one per button. */
  lemma TokensDistinct(a: Answer, b: Answer)
    ensures Token(a) in {"cancel", "decline", "accept"}
    ensures Token(a) == Token(b) <==> a == b
  {
  }

  /** What a control hands to the screen. */
  datatype Action = Change(field: string, value: string) | Submit(overrides: Dict<string>)

  /** A click on an answer button: report the token, and in a yes/no prompt submit it as the one override. */
  function Click(e: Elicitation, field: string, a: Answer): (actions: seq<Action>)
    ensures |actions| >= 1 && actions[0] == Change(field, Token(a))
    ensures IsBooleanOnly(e) <==> |actions| == 2
    ensures |actions| == 2 ==> actions[1] == Submit([(field, Token(a))])
  {
    [Change(field, Token(a))] + (if IsBooleanOnly(e) then [Submit([(field, Token(a))])] else [])
  }

  /** What a text input reports as the user types. */
  function Typed(field: string, text: string): Action {
    Change(field, text)
  }

  /** One rendered control. */
  datatype Control =
    | Buttons(field: string, disabled: bool, waiting: bool)
    | TextInput(field: string, value: string, placeholder: string, disabled: bool)

  /** `fieldControl(name, def)`. */
  function ControlFor(e: Elicitation, values: Dict<string>, submitting: bool, field: string, def: Option<PropertyDef>): (c: Control)
    ensures c.field == field
    ensures c.disabled <==> submitting || field == ChatIdField
    ensures c.Buttons? <==> KindOf(def) == Some(BooleanType)
  {
    var disabled := submitting || field == ChatIdField;
    if KindOf(def) == Some(BooleanType) then Buttons(field, disabled, submitting && IsBooleanOnly(e))
    else TextInput(field, FieldValue(values, field), PlaceholderText(def), disabled)
  }

  /** The rendered prompt: its title, one control per visible field, and whether the waiting footer applies. */
  datatype View = View(title: Option<string>, controls: seq<Control>, footerWaiting: bool)

  /** `ElicitationPrompt(...)`: nothing without an elicitation. */
  function Render(e: Option<Elicitation>, values: Dict<string>, submitting: bool): (v: Option<View>)
    ensures e.None? <==> v.None?
  {
    if e.None? then None
    else
      var fields := VisibleFields(Properties(e.value));
      Some(View(e.value.message,
                seq(|fields|, i requires 0 <= i < |fields| => ControlFor(e.value, values, submitting, fields[i].0, fields[i].1)),
                !IsBooleanOnly(e.value) && submitting))
  }

  /** One control per shown field, in order; none for `chatId`; every control disabled exactly while submitting. */
  lemma RenderedControls(e: Elicitation, values: Dict<string>, submitting: bool)
    ensures var v := Render(Some(e), values, submitting).value;
      && |v.controls| == |VisibleFields(Properties(e))|
      && (forall i :: 0 <= i < |v.controls| ==> v.controls[i].field == VisibleFields(Properties(e))[i].0)
      && (forall i :: 0 <= i < |v.controls| ==> v.controls[i].field != ChatIdField)
      && (forall i :: 0 <= i < |v.controls| ==> (v.controls[i].disabled <==> submitting))
  {
    var fields := VisibleFields(Properties(e));
    forall i | 0 <= i < |fields| ensures fields[i].0 != ChatIdField {
      assert fields[i] in fields;
    }
  }
}
