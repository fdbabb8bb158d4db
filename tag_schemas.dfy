/**
 * The request bodies of the tag endpoints, the colour pattern
 * `^#[0-9A-Fa-f]{6}$` (the six-digit hex notation of CSS Color Module
 * Level 4, section 5.2) and the `TagWithCount` listing entry.
 */
module TagSchemas {
  import opened Wrappers
  import opened Models
  import TicketSchemas

  datatype TagCreate = TagCreate(name: string, color: Option<string>)

  datatype TagUpdate = TagUpdate(name: Option<string>, color: Option<string>)

  /** One entry of the tag listing: the tag's own fields and the number of tickets carrying it. */
  datatype TagWithCount = TagWithCount(id: int, name: string, color: Option<string>, ticketCount: nat)

  predicate IsHexDigit(c: char) {
    ('0' <= c <= '9') || ('A' <= c <= 'F') || ('a' <= c <= 'f')
  }

  /** `^#[0-9A-Fa-f]{6}$`: a `#` and exactly six hex digits of either case. */
  predicate IsHexColor(s: string) {
    |s| == 7 && s[0] == '#' && forall i :: 1 <= i < 7 ==> IsHexDigit(s[i])
  }

  /** A colour the schema accepts always fits the `String(7)` column. */
  lemma HexColorFitsColumn(s: string)
    requires IsHexColor(s)
    ensures |s| <= ColorMaxLength
  {
  }

  predicate TagCreateOk(t: TagCreate) {
    |t.name| <= TagNameMaxLength && (t.color.Some? ==> IsHexColor(t.color.value))
  }

  predicate TagUpdateOk(t: TagUpdate) {
    (t.name.Some? ==> |t.name.value| <= TagNameMaxLength) && (t.color.Some? ==> IsHexColor(t.color.value))
  }

  const ColorPatternError := "String should match pattern '^#[0-9A-Fa-f]{6}$'"

  /** An optional colour: absent or `null` is `None`, a present value must match the pattern. */
  function OptionalColor(f: Field<string>): (r: Result<Option<string>>)
    ensures r.Ok? <==> !(f.Present? && !IsHexColor(f.value))
    ensures r.Ok? ==> r.value == TicketSchemas.OptionalField(f)
  {
    if f.Present? && !IsHexColor(f.value) then Fail(TicketSchemas.Unprocessable(ColorPatternError))
    else Ok(TicketSchemas.OptionalField(f))
  }

  /** Validation of a `TagCreate` body. */
  function ParseTagCreate(name: Field<string>, color: Field<string>): (r: Result<TagCreate>)
    ensures r.Ok? <==> name.Present? && |name.value| <= TagNameMaxLength && !(color.Present? && !IsHexColor(color.value))
    ensures r.Ok? ==> TagCreateOk(r.value)
    ensures r.Ok? ==> r.value == TagCreate(name.value, TicketSchemas.OptionalField(color))
    ensures r.Fail? ==> r.error.status == 422
  {
    match TicketSchemas.RequiredText(name, TagNameMaxLength)
    case Fail(e) => Fail(e)
    case Ok(n) =>
      match OptionalColor(color)
      case Fail(e) => Fail(e)
      case Ok(c) => Ok(TagCreate(n, c))
  }

  /** Validation of a `TagUpdate` body. */
  function ParseTagUpdate(name: Field<string>, color: Field<string>): (r: Result<TagUpdate>)
    ensures r.Ok? <==> !(name.Present? && |name.value| > TagNameMaxLength) && !(color.Present? && !IsHexColor(color.value))
    ensures r.Ok? ==> TagUpdateOk(r.value)
    ensures r.Ok? ==> r.value == TagUpdate(TicketSchemas.OptionalField(name), TicketSchemas.OptionalField(color))
    ensures r.Fail? ==> r.error.status == 422
  {
    if name.Present? && |name.value| > TagNameMaxLength then
      Fail(TicketSchemas.Unprocessable("String should have at most 50 characters"))
    else
      match OptionalColor(color)
      case Fail(e) => Fail(e)
      case Ok(c) => Ok(TagUpdate(TicketSchemas.OptionalField(name), c))
  }

  /** Both spellings of hex digits pass; three-digit shorthand and colour names do not. */
  lemma ColorPatternExamples()
    ensures IsHexColor("#ff0000") && IsHexColor("#3B82F6")
    ensures !IsHexColor("#fff") && !IsHexColor("red") && !IsHexColor("#ff00zz") && !IsHexColor("ff0000#")
  {
    var bad := "#ff00zz";
    assert !IsHexDigit(bad[5]);
  }
}
