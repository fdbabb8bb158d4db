/**
 * The tag-creation dialog: a name field and a colour chosen from seven
 * presets. Submitting a non-blank name emits a create request and resets
 * the dialog; closing resets it too.
 */
module TagCreateDialog {
  import opened Wrappers
  import opened ClientTypes
  import Text
  import TagSchemas
  import Models

  /** `PRESET_COLORS`: red, amber, green, blue, purple, pink, gray. */
  const PresetColors: seq<string> := ["#ef4444", "#f59e0b", "#10b981", "#3b82f6", "#8b5cf6", "#ec4899", "#6b7280"]

  /** The colour a fresh or reset dialog shows: `PRESET_COLORS[3]`, blue. */
  const DefaultColor := PresetColors[3]

  /** Every preset matches the server's colour pattern. */
  lemma PresetColorsAreHexColors()
    ensures forall i :: 0 <= i < |PresetColors| ==> TagSchemas.IsHexColor(PresetColors[i])
    ensures DefaultColor == "#3b82f6"
  {
    forall i | 0 <= i < |PresetColors| ensures TagSchemas.IsHexColor(PresetColors[i]) {
      var c := PresetColors[i];
      assert |c| == 7 && c[0] == '#';
      assert forall j :: 1 <= j < 7 ==> TagSchemas.IsHexDigit(c[j]);
    }
  }

  /** What `handleSubmit` hands to `onSubmit`: the trimmed name and the colour, unless the name is blank. */
  function Submitted(name: string, color: string): (r: Option<CreateTagRequest>)
    ensures r.Some? <==> !Text.IsBlank(name)
    ensures r.Some? ==> r.value.name == Text.Trim(name) && r.value.name != "" && r.value.color == Some(color)
  {
    if Text.IsBlank(name) then None else Some(CreateTagRequest(Text.Trim(name), Some(color)))
  }

  /**
   * A request the dialog emits with a preset colour and a name of at most 50
   * characters is one the server's `TagCreate` schema accepts.
   */
  lemma SubmittedIsAccepted(name: string, color: string)
    requires color in PresetColors && |name| <= Models.TagNameMaxLength
    requires Submitted(name, color).Some?
    ensures var r := Submitted(name, color).value;
      TagSchemas.TagCreateOk(TagSchemas.TagCreate(r.name, r.color))
  {
    PresetColorsAreHexColors();
  }

  /** `disabled={!name.trim() || isSubmitting}`. */
  predicate SubmitDisabled(name: string, isSubmitting: bool) {
    Text.IsBlank(name) || isSubmitting
  }

  /** While nothing is being submitted, the button is enabled exactly when a submit would emit a request. */
  lemma EnabledExactlyWhenSubmitEmits(name: string, color: string)
    ensures !SubmitDisabled(name, false) <==> Submitted(name, color).Some?
  {
  }

  class Dialog {
    var name: string
    var color: string

    ghost predicate Valid()
      reads this
    {
      color in PresetColors
    }

    constructor ()
      ensures name == "" && color == DefaultColor && Valid()
    {
      name := "";
      color := DefaultColor;
    }

    method SetName(value: string)
      modifies this
      ensures name == value && color == old(color)
      ensures old(Valid()) ==> Valid()
    {
      name := value;
    }

    /** A click on the `i`-th preset swatch. */
    method SelectColor(i: nat)
      requires i < |PresetColors|
      modifies this
      ensures color == PresetColors[i] && name == old(name)
      ensures Valid()
    {
      color := PresetColors[i];
    }

    /** `handleClose`: back to the empty name and the default colour; the parent is told to close. */
    method HandleClose() returns (closed: bool)
      modifies this
      ensures name == "" && color == DefaultColor && closed
      ensures Valid()
    {
      name := "";
      color := DefaultColor;
      closed := true;
    }

    /**
     * `handleSubmit`: a blank name changes nothing and emits nothing;
     * otherwise the request is emitted and the dialog closes and resets.
     */
    method HandleSubmit() returns (emitted: Option<CreateTagRequest>, closed: bool)
      modifies this
      ensures emitted == Submitted(old(name), old(color))
      ensures emitted.None? ==> !closed && name == old(name) && color == old(color)
      ensures emitted.Some? ==> closed && name == "" && color == DefaultColor
      ensures old(Valid()) ==> Valid()
    {
      if Text.IsBlank(name) {
        return None, false;
      }
      emitted := Some(CreateTagRequest(Text.Trim(name), Some(color)));
      closed := HandleClose();
    }
  }
}
