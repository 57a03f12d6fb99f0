/** The send-sequence editor (sequence_editor_dialog.py): a name, a mode
    and one text field that is normalised on every user edit. A rewrite
    by the editor itself raises a guard flag so that the change signal it
    causes is ignored, and keeps the caret inside the new text. */
module SequenceEditor {
  import opened Text
  import opened Wrappers
  import opened Lists
  import opened Normalise
  import opened Store
  import SendSequences

  /** A text widget: its text, the caret position, and its tooltip ("" when valid). */
  datatype Field = Field(text: string, caret: nat, tooltip: string)

  /** `set_text_programmatically`: the new text with the caret clamped to it. */
  function Rewrite(f: Field, t: string): (g: Field)
    ensures g.text == t && g.tooltip == f.tooltip
    ensures g.caret <= |t| && (f.caret <= |t| ==> g.caret == f.caret)
  {
    Field(t, Min(f.caret, |t|), f.tooltip)
  }

  /** One validation pass over a field: the tooltip is the verdict on the
      text as it was, and the text is rewritten only when its normal form
      differs. */
  function ValidateField(m: Mode, f: Field): (g: Field)
    ensures g.text == Validate(m, f.text).text
    ensures g.tooltip == Validate(m, f.text).tooltip
    ensures g.text == f.text ==> g.caret == f.caret
    ensures f.caret <= |f.text| ==> g.caret <= |g.text|
  {
    var c := Validate(m, f.text);
    if c.text != f.text then Rewrite(f.(tooltip := c.tooltip), c.text) else f.(tooltip := c.tooltip)
  }

  /** A second pass changes neither the text nor the caret. It keeps a
      Decimal verdict, and clears a HEX complaint: the first pass judged
      the text before regrouping it, the second judges the regrouped text. */
  lemma SecondPassSettles(m: Mode, f: Field)
    ensures var g := ValidateField(m, f);
      ValidateField(m, g) == if m == Decimal then g else g.(tooltip := "")
  {
    match m
    case ASCII =>
    case HEX => HexValidateFixpoint(f.text);
    case Decimal => DecimalValidateFixpoint(f.text);
  }

  /** "ABC" in a HEX field is regrouped to "AB C" and flagged on the first
      pass; the flag goes on the next one. */
  lemma StaleHexTooltip(f: Field)
    requires f.text == "ABC"
    ensures ValidateField(HEX, f).text == "AB C"
    ensures ValidateField(HEX, f).tooltip == HexTooltip
    ensures ValidateField(HEX, ValidateField(HEX, f)).tooltip == ""
  {
    HexExample();
    SecondPassSettles(HEX, f);
  }

  /** Text that a `QTextEdit` built on it shows unchanged. The widget reads
      its initial text as HTML, so markup (`<`) and entities (`&`) are
      interpreted, line breaks and runs of whitespace collapse, and leading
      and trailing whitespace goes; none of that touches text without
      `<` or `&` whose only whitespace is single inner spaces. */
  predicate HtmlNeutral(s: string) {
    forall i | 0 <= i < |s| ::
      && s[i] != '<' && s[i] != '&'
      && (IsSpace(s[i]) ==> s[i] == ' ' && 0 < i < |s| - 1 && !IsSpace(s[i - 1]) && !IsSpace(s[i + 1]))
  }

  class SequenceEditorDialog {
    var name: string
    var mode: Mode
    var sequence: Field
    /** `_is_programmatically_changing` */
    var programmatic: bool
    /** The dialog was closed with OK. */
    var accepted: bool

    /** Opening the dialog on a stored entry: absent keys read as "", the
        mode as its radio button, and the text gets one validation pass.
        The text box starts from `shown`, Qt's plain-text rendering of the
        stored text read as HTML, which is the stored text itself when
        that is HTML-neutral. */
    constructor(data: SendSequences.Sequence, shown: string)
      requires HtmlNeutral(Get(data.sequence, "")) ==> shown == Get(data.sequence, "")
      ensures name == Get(data.name, "") && mode == ModeOf(Get(data.mode, "ASCII"))
      ensures sequence == ValidateField(mode, Field(shown, 0, ""))
      ensures !programmatic && !accepted
    {
      name := Get(data.name, "");
      mode := ModeOf(Get(data.mode, "ASCII"));
      sequence := Field(shown, 0, "");
      programmatic := false;
      accepted := false;
      new;
      ValidateCurrentText();
    }

    /** `validate_current_text` */
    method ValidateCurrentText()
      requires !programmatic
      modifies this
      decreases 2
      ensures sequence == ValidateField(mode, old(sequence))
      ensures name == old(name) && mode == old(mode) && accepted == old(accepted) && !programmatic
    {
      ghost var f := sequence;
      var c := Validate(mode, sequence.text);
      assert ValidateField(mode, f)
          == if c.text != f.text then Rewrite(f.(tooltip := c.tooltip), c.text) else f.(tooltip := c.tooltip);
      sequence := sequence.(tooltip := c.tooltip);
      if c.text != sequence.text {
        SetTextProgrammatically(c.text);
      }
    }

    /** `set_text_programmatically`: the change signal the write emits
        reaches `on_text_changed` while the guard is up. */
    method SetTextProgrammatically(t: string)
      requires !programmatic
      modifies this
      decreases 1
      ensures sequence == Rewrite(old(sequence), t)
      ensures name == old(name) && mode == old(mode) && accepted == old(accepted) && !programmatic
    {
      programmatic := true;
      var pos := sequence.caret;
      sequence := sequence.(text := t);
      OnTextChanged();
      sequence := sequence.(caret := Min(pos, |t|));
      programmatic := false;
    }

    /** `on_text_changed`: ignored while the editor writes; otherwise a
        validation pass. */
    method OnTextChanged()
      modifies this
      decreases if programmatic then 0 else 3
      ensures old(programmatic) ==> unchanged(this)
      ensures !old(programmatic) ==> sequence == ValidateField(mode, old(sequence))
      ensures name == old(name) && mode == old(mode) && accepted == old(accepted)
      ensures programmatic == old(programmatic)
    {
      if programmatic {
        return;
      }
      ValidateCurrentText();
    }

    /** The user types: the field holds `t` with the caret at `pos`, and
        the change signal fires. */
    method UserEdit(t: string, pos: nat)
      requires !programmatic && pos <= |t|
      modifies this
      ensures sequence == ValidateField(mode, Field(t, pos, old(sequence).tooltip))
      ensures sequence.caret <= |sequence.text|
      ensures name == old(name) && mode == old(mode) && accepted == old(accepted) && !programmatic
    {
      sequence := Field(t, pos, sequence.tooltip);
      OnTextChanged();
    }

    /** `on_mode_changed`: a click on a mode button revalidates under that mode. */
    method OnModeChanged(m: Mode)
      requires !programmatic
      modifies this
      ensures mode == m && sequence == ValidateField(m, old(sequence))
      ensures name == old(name) && accepted == old(accepted) && !programmatic
    {
      mode := m;
      ValidateCurrentText();
    }

    /** `validate_and_accept`: refused when the stripped name or text is
        empty (the text is then left alone), otherwise revalidated and
        accepted only when no complaint remains. */
    method ValidateAndAccept()
      requires !programmatic
      modifies this
      ensures var filled := Strip(name) != [] && Strip(old(sequence).text) != [];
        && sequence == (if filled then ValidateField(mode, old(sequence)) else old(sequence))
        && (accepted <==> old(accepted) || (filled && Validate(mode, old(sequence).text).tooltip == ""))
      ensures name == old(name) && mode == old(mode) && !programmatic
    {
      if Strip(name) == [] || Strip(sequence.text) == [] {
        return;
      }
      ValidateCurrentText();
      if sequence.tooltip != "" {
        return;
      }
      accepted := true;
    }

    /** `get_data`: the fields as typed (not stripped) and the mode's name. */
    function GetData(): (d: SendSequences.Sequence)
      reads this
      ensures d.name == Some(name) && d.sequence == Some(sequence.text)
      ensures d.mode.Some? && ModeOf(d.mode.value) == mode
    {
      SendSequences.Sequence(Some(name), Some(sequence.text), Some(ModeName(mode)))
    }
  }
}
