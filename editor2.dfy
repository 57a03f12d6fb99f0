/** The trigger/response editor (SequenceEditorDialog2.py): a name and two
    normalised text fields, the trigger and the response, each with its
    own mode. Both fields share one guard flag. */
module RuleEditor {
  import opened Text
  import opened Wrappers
  import opened Lists
  import opened Normalise
  import opened Store
  import opened SequenceEditor
  import ReceiveSequences

  type Rule = ReceiveSequences.Rule

  /** The two text widgets of the dialog. */
  datatype Target = TriggerEdit | ResponseEdit

  /** `rule_data.get(key)` for the string-valued keys a rule has. */
  function Lookup(rule: Rule, key: string): (v: Option<string>)
    ensures key == "response" ==> v == rule.response
    ensures key !in {"name", "trigger", "mode", "response", "response_mode"} ==> v == None
  {
    if key == "name" then rule.name
    else if key == "trigger" then rule.trigger
    else if key == "mode" then rule.mode
    else if key == "response" then rule.response
    else if key == "response_mode" then rule.responseMode
    else None
  }

  /** The response text the dialog opens with, as written: it reads the
      key "reponse", which no rule has. */
  function InitialResponseAsWritten(rule: Rule): (r: string)
    ensures r == ""
  {
    Get(Lookup(rule, "reponse"), "")
  }

  /** The response text the dialog opens with, read from the key the
      dialog itself writes. */
  function InitialResponse(rule: Rule): (r: string)
    ensures r == Get(rule.response, "")
  {
    Get(Lookup(rule, "response"), "")
  }

  /** The dictionary `get_data` builds: stripped texts, both mode names,
      and no "enabled" key. */
  function RuleData(name: string, trigger: string, mode: Mode, response: string, responseMode: Mode): (rule: Rule)
    ensures rule.enabled == None
    ensures rule.name == Some(Strip(name)) && rule.trigger == Some(Strip(trigger))
    ensures rule.response == Some(Strip(response))
    ensures ModeOf(Get(rule.mode, "ASCII")) == mode && ModeOf(Get(rule.responseMode, "ASCII")) == responseMode
  {
    ReceiveSequences.Rule(Some(Strip(name)), None, Some(Strip(trigger)), Some(ModeName(mode)),
                          Some(Strip(response)), Some(ModeName(responseMode)))
  }

  /** As written, reopening a rule the dialog saved never shows its
      response, whatever it was: an edited rule must have its response
      typed again before OK is accepted. */
  lemma ResponseNotPrefilled(name: string, trigger: string, mode: Mode, response: string, responseMode: Mode)
    requires Strip(response) != []
    ensures var rule := RuleData(name, trigger, mode, response, responseMode);
      InitialResponseAsWritten(rule) != Get(rule.response, "")
  {
  }

  /** Corrected, reopening a rule the dialog saved reads every field back
      as it was saved, the response included. The text boxes then show
      Qt's rendering of those texts as HTML, which is the saved text itself
      when it is HTML-neutral (see the constructor). */
  lemma ReopenShowsSaved(name: string, trigger: string, mode: Mode, response: string, responseMode: Mode)
    ensures var rule := RuleData(name, trigger, mode, response, responseMode);
      && Get(Lookup(rule, "name"), "") == Strip(name)
      && Get(Lookup(rule, "trigger"), "") == Strip(trigger)
      && InitialResponse(rule) == Strip(response)
      && ModeOf(Get(Lookup(rule, "mode"), "ASCII")) == mode
      && ModeOf(Get(Lookup(rule, "response_mode"), "ASCII")) == responseMode
  {
  }

  class SequenceEditorDialog2 {
    var name: string
    var triggerMode: Mode
    var trigger: Field
    var responseMode: Mode
    var response: Field
    /** `_is_programmatically_changing`, shared by both fields. */
    var programmatic: bool
    var accepted: bool

    function ModeFor(t: Target): Mode
      reads this
    {
      if t == TriggerEdit then triggerMode else responseMode
    }

    function FieldOf(t: Target): Field
      reads this
    {
      if t == TriggerEdit then trigger else response
    }

    /** Opening the dialog on a rule (an empty one for a new trigger):
        absent keys read as "", unknown modes as ASCII, and both fields
        get one validation pass, the trigger first. Each text box starts
        from Qt's plain-text rendering of its text read as HTML, which is
        the text itself when that is HTML-neutral. The response is read
        under the key the dialog writes. */
    constructor(rule: Rule, triggerShown: string, responseShown: string)
      requires HtmlNeutral(Get(rule.trigger, "")) ==> triggerShown == Get(rule.trigger, "")
      requires HtmlNeutral(InitialResponse(rule)) ==> responseShown == InitialResponse(rule)
      ensures name == Get(rule.name, "")
      ensures triggerMode == ModeOf(Get(rule.mode, "ASCII"))
      ensures responseMode == ModeOf(Get(rule.responseMode, "ASCII"))
      ensures trigger == ValidateField(triggerMode, Field(triggerShown, 0, ""))
      ensures response == ValidateField(responseMode, Field(responseShown, 0, ""))
      ensures !programmatic && !accepted
    {
      name := Get(rule.name, "");
      triggerMode := ModeOf(Get(rule.mode, "ASCII"));
      trigger := Field(triggerShown, 0, "");
      response := Field(responseShown, 0, "");
      responseMode := ModeOf(Get(rule.responseMode, "ASCII"));
      programmatic := false;
      accepted := false;
      new;
      ValidateCurrent(TriggerEdit);
      ValidateCurrent(ResponseEdit);
    }

    /** The same, as written: the response is read under the key
        "reponse", so the response box always opens empty. */
    constructor AsWritten(rule: Rule, triggerShown: string)
      requires HtmlNeutral(Get(rule.trigger, "")) ==> triggerShown == Get(rule.trigger, "")
      ensures name == Get(rule.name, "")
      ensures triggerMode == ModeOf(Get(rule.mode, "ASCII"))
      ensures responseMode == ModeOf(Get(rule.responseMode, "ASCII"))
      ensures trigger == ValidateField(triggerMode, Field(triggerShown, 0, ""))
      ensures response == ValidateField(responseMode, Field(InitialResponseAsWritten(rule), 0, ""))
      ensures response.text == ""
      ensures !programmatic && !accepted
    {
      name := Get(rule.name, "");
      triggerMode := ModeOf(Get(rule.mode, "ASCII"));
      trigger := Field(triggerShown, 0, "");
      response := Field(InitialResponseAsWritten(rule), 0, "");
      responseMode := ModeOf(Get(rule.responseMode, "ASCII"));
      programmatic := false;
      accepted := false;
      new;
      ValidateCurrent(TriggerEdit);
      ValidateCurrent(ResponseEdit);
    }

    /** `validate_current_trigger` / `validate_current_response`: one pass
        over the target field under its own mode; the other field is untouched. */
    method ValidateCurrent(t: Target)
      requires !programmatic
      modifies this
      decreases 2
      ensures FieldOf(t) == ValidateField(old(ModeFor(t)), old(FieldOf(t)))
      ensures t == TriggerEdit ==> response == old(response)
      ensures t == ResponseEdit ==> trigger == old(trigger)
      ensures name == old(name) && triggerMode == old(triggerMode) && responseMode == old(responseMode)
      ensures accepted == old(accepted) && !programmatic
    {
      ghost var before := FieldOf(t);
      var c := Validate(ModeFor(t), FieldOf(t).text);
      ghost var tipped := before.(tooltip := c.tooltip);
      if t == TriggerEdit {
        trigger := trigger.(tooltip := c.tooltip);
      } else {
        response := response.(tooltip := c.tooltip);
      }
      assert FieldOf(t) == tipped;
      if c.text != FieldOf(t).text {
        SetTextProgrammatically(t, c.text);
        assert FieldOf(t) == Rewrite(tipped, c.text);
      }
    }

    /** `set_text_programmatically(widget, text)` */
    method SetTextProgrammatically(t: Target, s: string)
      requires !programmatic
      modifies this
      decreases 1
      ensures FieldOf(t) == Rewrite(old(FieldOf(t)), s)
      ensures t == TriggerEdit ==> response == old(response)
      ensures t == ResponseEdit ==> trigger == old(trigger)
      ensures name == old(name) && triggerMode == old(triggerMode) && responseMode == old(responseMode)
      ensures accepted == old(accepted) && !programmatic
    {
      programmatic := true;
      var pos := FieldOf(t).caret;
      if t == TriggerEdit {
        trigger := trigger.(text := s);
      } else {
        response := response.(text := s);
      }
      OnTextChanged(t);
      if t == TriggerEdit {
        trigger := trigger.(caret := Min(pos, |s|));
      } else {
        response := response.(caret := Min(pos, |s|));
      }
      programmatic := false;
    }

    /** `on_trigger_text_changed` / `on_response_text_changed` */
    method OnTextChanged(t: Target)
      modifies this
      decreases if programmatic then 0 else 3
      ensures old(programmatic) ==> unchanged(this)
      ensures !old(programmatic) ==> FieldOf(t) == ValidateField(old(ModeFor(t)), old(FieldOf(t)))
      ensures t == TriggerEdit ==> response == old(response)
      ensures t == ResponseEdit ==> trigger == old(trigger)
      ensures name == old(name) && triggerMode == old(triggerMode) && responseMode == old(responseMode)
      ensures accepted == old(accepted) && programmatic == old(programmatic)
    {
      if programmatic {
        return;
      }
      ValidateCurrent(t);
    }

    /** The user types into one field: it holds `s` with the caret at
        `pos`, and that field's change signal fires. */
    method UserEdit(t: Target, s: string, pos: nat)
      requires !programmatic && pos <= |s|
      modifies this
      ensures FieldOf(t) == ValidateField(ModeFor(t), Field(s, pos, old(FieldOf(t)).tooltip))
      ensures FieldOf(t).caret <= |FieldOf(t).text|
      ensures t == TriggerEdit ==> response == old(response)
      ensures t == ResponseEdit ==> trigger == old(trigger)
      ensures name == old(name) && triggerMode == old(triggerMode) && responseMode == old(responseMode)
      ensures accepted == old(accepted) && !programmatic
    {
      if t == TriggerEdit {
        trigger := Field(s, pos, trigger.tooltip);
      } else {
        response := Field(s, pos, response.tooltip);
      }
      OnTextChanged(t);
    }

    /** `on_mode_changed`: the trigger mode changes and only the trigger
        is revalidated. */
    method OnModeChanged(m: Mode)
      requires !programmatic
      modifies this
      ensures triggerMode == m && trigger == ValidateField(m, old(trigger))
      ensures response == old(response) && responseMode == old(responseMode)
      ensures name == old(name) && accepted == old(accepted) && !programmatic
    {
      triggerMode := m;
      ValidateCurrent(TriggerEdit);
    }

    /** `on_response_mode_changed`: the response mode changes and only the
        response is revalidated. */
    method OnResponseModeChanged(m: Mode)
      requires !programmatic
      modifies this
      ensures responseMode == m && response == ValidateField(m, old(response))
      ensures trigger == old(trigger) && triggerMode == old(triggerMode)
      ensures name == old(name) && accepted == old(accepted) && !programmatic
    {
      responseMode := m;
      ValidateCurrent(ResponseEdit);
    }

    /** `validate_and_accept`: name, trigger and response must be
        non-empty once stripped; then both fields are revalidated and OK is
        accepted only when neither carries a complaint. */
    method ValidateAndAccept()
      requires !programmatic
      modifies this
      ensures var filled := Strip(name) != [] && Strip(old(trigger).text) != [] && Strip(old(response).text) != [];
        && trigger == (if filled then ValidateField(triggerMode, old(trigger)) else old(trigger))
        && response == (if filled then ValidateField(responseMode, old(response)) else old(response))
        && (accepted <==> (old(accepted) || (filled
                                             && Validate(triggerMode, old(trigger).text).tooltip == ""
                                             && Validate(responseMode, old(response).text).tooltip == "")))
      ensures name == old(name) && triggerMode == old(triggerMode) && responseMode == old(responseMode)
      ensures !programmatic
    {
      if Strip(name) == [] || Strip(trigger.text) == [] || Strip(response.text) == [] {
        return;
      }
      RevalidateAndAccept();
    }

    /** The second half of `validate_and_accept`, once the three fields are
        filled: both fields are revalidated, and OK is accepted when
        neither carries a complaint. */
    method RevalidateAndAccept()
      requires !programmatic
      modifies this
      ensures trigger == ValidateField(triggerMode, old(trigger))
      ensures response == ValidateField(responseMode, old(response))
      ensures accepted <==> old(accepted) || (Validate(triggerMode, old(trigger).text).tooltip == ""
                                              && Validate(responseMode, old(response).text).tooltip == "")
      ensures name == old(name) && triggerMode == old(triggerMode) && responseMode == old(responseMode)
      ensures !programmatic
    {
      ValidateCurrent(TriggerEdit);
      ghost var triggerAfter := trigger;
      ValidateCurrent(ResponseEdit);
      assert trigger == triggerAfter;
      if trigger.tooltip != "" {
        return;
      }
      if response.tooltip != "" {
        return;
      }
      accepted := true;
    }

    /** `get_data` */
    function GetData(): (rule: Rule)
      reads this
      ensures rule == RuleData(name, trigger.text, triggerMode, response.text, responseMode)
      ensures rule.enabled == None
    {
      RuleData(name, trigger.text, triggerMode, response.text, responseMode)
    }
  }
}
