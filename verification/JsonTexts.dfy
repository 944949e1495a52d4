/** Texts of the grammar of RFC 8259, and the tree that each of them stands for. */
module JsonTexts {
  import opened Json
  import opened Unescaping
  import opened ParsePrinted
  import opened StringTexts
  import opened NumberTexts

  /** A text by its parts. What stands between two signs is a gap. */
  datatype Text =
    | NullText
    | FalseText
    | TrueText
    | NumberOf(form: NumberForm)
    | StringOf(parts: seq<Part>)
    | ArrayOf(gap: string, slots: seq<Slot>)
    | ObjectOf(gap: string, fields: seq<Field>)

  /** One element with the gaps around it. */
  datatype Slot = Slot(before: string, text: Text, after: string)

  /** One member: the gaps around its name, and those around its value. */
  datatype Field =
    Field(before: string, name: seq<Part>, colon: string, value: string, text: Text, after: string)

  /** Its strings and numbers are well-formed. */
  predicate WellFormed(t: Text)
    decreases t
  {
    match t
    case NumberOf(form) => FormFits(form)
    case StringOf(parts) => AllFit(parts)
    case ArrayOf(_, slots) => SlotsWellFormed(slots)
    case ObjectOf(_, fields) => FieldsWellFormed(fields)
    case _ => true
  }

  predicate SlotsWellFormed(slots: seq<Slot>)
    decreases slots
  {
    slots == [] || (WellFormed(slots[0].text) && SlotsWellFormed(slots[1..]))
  }

  predicate FieldsWellFormed(fields: seq<Field>)
    decreases fields
  {
    fields == [] || (AllFit(fields[0].name) && WellFormed(fields[0].text) && FieldsWellFormed(fields[1..]))
  }

  // The text

  function TextOf(t: Text): string
    requires WellFormed(t)
    decreases t
  {
    match t
    case NullText => "null"
    case FalseText => "false"
    case TrueText => "true"
    case NumberOf(form) => FormText(form)
    case StringOf(parts) => LiteralText(parts)
    case ArrayOf(gap, slots) => "[" + (if slots == [] then gap else SlotsText(slots)) + "]"
    case ObjectOf(gap, fields) => "{" + (if fields == [] then gap else FieldsText(fields)) + "}"
  }

  function SlotText(s: Slot): string
    requires WellFormed(s.text)
    decreases s
  {
    s.before + TextOf(s.text) + s.after
  }

  /** The elements with commas between them. */
  function SlotsText(slots: seq<Slot>): string
    requires SlotsWellFormed(slots)
    decreases slots
  {
    if slots == [] then []
    else SlotText(slots[0]) + (if |slots| > 1 then "," else []) + SlotsText(slots[1..])
  }

  function FieldText(f: Field): string
    requires AllFit(f.name) && WellFormed(f.text)
    decreases f
  {
    f.before + LiteralText(f.name) + f.colon + ":" + f.value + TextOf(f.text) + f.after
  }

  function FieldsText(fields: seq<Field>): string
    requires FieldsWellFormed(fields)
    decreases fields
  {
    if fields == [] then []
    else FieldText(fields[0]) + (if |fields| > 1 then "," else []) + FieldsText(fields[1..])
  }

  // What it stands for

  /** The tree; strings and names end at a NUL that an escape may have put into them. */
  function ValueOf(t: Text): Value
    requires WellFormed(t)
    decreases t
  {
    match t
    case NullText => Null
    case FalseText => False
    case TrueText => True
    case NumberOf(form) => Number(IntOf(form))
    case StringOf(parts) => String(UntilNul(PartsMeaning(parts)))
    case ArrayOf(_, slots) => Array(SlotValues(slots))
    case ObjectOf(_, fields) => Object(FieldValues(fields))
  }

  function SlotValues(slots: seq<Slot>): (r: seq<Value>)
    requires SlotsWellFormed(slots)
    ensures |r| == |slots|
    decreases slots
  {
    if slots == [] then [] else [ValueOf(slots[0].text)] + SlotValues(slots[1..])
  }

  function FieldValue(f: Field): Entry<Value>
    requires AllFit(f.name) && WellFormed(f.text)
    decreases f
  {
    Entry(UntilNul(PartsMeaning(f.name)), ValueOf(f.text))
  }

  function FieldValues(fields: seq<Field>): (r: seq<Entry<Value>>)
    requires FieldsWellFormed(fields)
    ensures |r| == |fields|
    decreases fields
  {
    if fields == [] then [] else [FieldValue(fields[0])] + FieldValues(fields[1..])
  }

  // What the parser asks for

  /** Gaps of blanks, numbers that fit into the number buffer, and no more nesting than is left. */
  predicate Parseable(t: Text, room: nat)
    decreases t
  {
    match t
    case NumberOf(form) => |FormText(form)| <= LONGEST_NUMBER
    case ArrayOf(gap, slots) => room > 0 && AllBlank(gap) && SlotsParseable(slots, room - 1)
    case ObjectOf(gap, fields) => room > 0 && AllBlank(gap) && FieldsParseable(fields, room - 1)
    case _ => true
  }

  predicate SlotsParseable(slots: seq<Slot>, room: nat)
    decreases slots
  {
    slots == []
    || (&& AllBlank(slots[0].before) && AllBlank(slots[0].after) && Parseable(slots[0].text, room)
        && SlotsParseable(slots[1..], room))
  }

  predicate FieldsParseable(fields: seq<Field>, room: nat)
    decreases fields
  {
    fields == []
    || (&& AllBlank(fields[0].before) && AllBlank(fields[0].colon) && AllBlank(fields[0].value)
        && AllBlank(fields[0].after) && Parseable(fields[0].text, room) && FieldsParseable(fields[1..], room))
  }
}
