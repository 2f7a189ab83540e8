/**
 * The i3bar protocol block (one displayable item of the status line) and what the JSON
 * codec does to it: encoding drops every field that holds its zero value (the `omitempty`
 * tags), and decoding into an existing record overwrites only the fields present in the text.
 */
module Blocks {
  import opened Wrappers

  /** One i3bar block. An empty string, 0 or false means "absent". */
  datatype Block = Block(
    name: string,
    instance: string,
    markup: string,
    fullText: string,
    color: string,
    shortText: string,
    background: string,
    border: string,
    minWidth: int,
    align: string,
    urgent: bool,
    separator: bool,
    separatorBlockWidth: int)

  /** The zero-valued record, `&i3bar{}`. */
  const EmptyBlock := Block("", "", "", "", "", "", "", "", 0, "", false, false, 0)

  /**
   * The fields a JSON object names, with their decoded values; a field the object leaves
   * out (or gives as null) is None.
   */
  datatype PartialBlock = PartialBlock(
    name: Option<string>,
    instance: Option<string>,
    markup: Option<string>,
    fullText: Option<string>,
    color: Option<string>,
    shortText: Option<string>,
    background: Option<string>,
    border: Option<string>,
    minWidth: Option<int>,
    align: Option<string>,
    urgent: Option<bool>,
    separator: Option<bool>,
    separatorBlockWidth: Option<int>)

  /** What decoding text that names no field (`{}` or `null`) writes. */
  const NoFields := PartialBlock(None, None, None, None, None, None, None, None, None, None, None, None, None)

  function Pick<T>(field: Option<T>, current: T): T {
    if field.Some? then field.value else current
  }

  /** json.Unmarshal into an existing record: present fields are overwritten, the rest kept. */
  function Overlay(p: PartialBlock, b: Block): (r: Block)
    ensures p == NoFields ==> r == b
  {
    Block(
      Pick(p.name, b.name),
      Pick(p.instance, b.instance),
      Pick(p.markup, b.markup),
      Pick(p.fullText, b.fullText),
      Pick(p.color, b.color),
      Pick(p.shortText, b.shortText),
      Pick(p.background, b.background),
      Pick(p.border, b.border),
      Pick(p.minWidth, b.minWidth),
      Pick(p.align, b.align),
      Pick(p.urgent, b.urgent),
      Pick(p.separator, b.separator),
      Pick(p.separatorBlockWidth, b.separatorBlockWidth))
  }

  function Present<T(==)>(v: T, zero: T): Option<T> {
    if v == zero then None else Some(v)
  }

  /** The fields json.Marshal writes for `b`: those whose value is not the zero value. */
  function OmitEmpty(b: Block): (p: PartialBlock)
    ensures Overlay(p, EmptyBlock) == b
  {
    PartialBlock(
      Present(b.name, ""),
      Present(b.instance, ""),
      Present(b.markup, ""),
      Present(b.fullText, ""),
      Present(b.color, ""),
      Present(b.shortText, ""),
      Present(b.background, ""),
      Present(b.border, ""),
      Present(b.minWidth, 0),
      Present(b.align, ""),
      Present(b.urgent, false),
      Present(b.separator, false),
      Present(b.separatorBlockWidth, 0))
  }

  /** Wherever `b` holds the zero value, so does `prev`. */
  predicate ZeroWhereAbsent(b: Block, prev: Block) {
    (b.name == "" ==> prev.name == "") &&
    (b.instance == "" ==> prev.instance == "") &&
    (b.markup == "" ==> prev.markup == "") &&
    (b.fullText == "" ==> prev.fullText == "") &&
    (b.color == "" ==> prev.color == "") &&
    (b.shortText == "" ==> prev.shortText == "") &&
    (b.background == "" ==> prev.background == "") &&
    (b.border == "" ==> prev.border == "") &&
    (b.minWidth == 0 ==> prev.minWidth == 0) &&
    (b.align == "" ==> prev.align == "") &&
    (!b.urgent ==> !prev.urgent) &&
    (!b.separator ==> !prev.separator) &&
    (b.separatorBlockWidth == 0 ==> prev.separatorBlockWidth == 0)
  }

  /**
   * Encoding `b` and decoding the text into a record that already holds `prev` gives back
   * exactly `b` if and only if `prev` has nothing in the fields `b` leaves out: a field that
   * was set in an earlier cycle and is absent now survives the decode.
   */
  lemma {:induction false} OmitEmptyRoundTrip(b: Block, prev: Block)
    ensures Overlay(OmitEmpty(b), prev) == b <==> ZeroWhereAbsent(b, prev)
  {
  }

  /**
   * Decoding the same text twice into a record leaves it as decoding it once does, so a
   * command that prints the same block every cycle keeps a stable record.
   */
  lemma {:induction false} OverlayIdempotent(p: PartialBlock, b: Block)
    ensures Overlay(p, Overlay(p, b)) == Overlay(p, b)
  {
  }

  /** The JSON object names no field with its zero value. */
  predicate NamesNoZero(p: PartialBlock) {
    p.name != Some("") && p.instance != Some("") && p.markup != Some("") &&
    p.fullText != Some("") && p.color != Some("") && p.shortText != Some("") &&
    p.background != Some("") && p.border != Some("") && p.minWidth != Some(0) &&
    p.align != Some("") && p.urgent != Some(false) && p.separator != Some(false) &&
    p.separatorBlockWidth != Some(0)
  }

  /**
   * An upstream block is decoded into a fresh record and encoded again with omitempty. The
   * fields written back are exactly the fields the upstream object named if and only if it
   * named none of them with its zero value: `"separator": false`, `"urgent": false` or
   * `"separator_block_width": 0`, for instance, are dropped on the way through.
   */
  lemma {:induction false} ReEncodeDropsZeros(p: PartialBlock)
    ensures OmitEmpty(Overlay(p, EmptyBlock)) == p <==> NamesNoZero(p)
    ensures p.separator == Some(false) ==> OmitEmpty(Overlay(p, EmptyBlock)).separator == None
  {
  }
}
