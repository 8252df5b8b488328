/** The contact form controller (main.js:231-339): per-field validation with an
    `error` marker, submission that validates every field first, a simulated
    request that relabels and disables the submit button and restores it
    afterwards, and a single slot of status messages. */
module ContactFormController {
  import opened JsStrings
  import opened EmailValidation

  const ValidationFailedText: string := "Please fill in all fields correctly."
  const SuccessText: string := "Thank you! Your message has been sent successfully."
  const SendingLabel: string := "Sending..."

  /** The `type` argument of `showMessage`, which becomes a class of the element. */
  datatype MessageKind = Success | Error

  /** A `.form-message` element. `serial` tells apart elements created by
      different calls, so that each 5-second removal timer removes its own. */
  datatype StatusMessage = StatusMessage(serial: nat, text: string, kind: MessageKind)

  /** The form's children of class `form-message` after `messageElement.remove()`
      on the element created with `serial`. */
  function Without(ms: seq<StatusMessage>, serial: nat): (r: seq<StatusMessage>)
    ensures forall m :: m in r <==> m in ms && m.serial != serial
    ensures |r| <= |ms|
    ensures (forall m :: m in ms ==> m.serial != serial) ==> r == ms
  {
    if ms == [] then []
    else if ms[0].serial == serial then Without(ms[1..], serial)
    else [ms[0]] + Without(ms[1..], serial)
  }

  /** An `input` or `textarea` of the form. */
  class Field {
    /** The `type` attribute; only `"email"` matters. */
    const kind: string
    /** The value `form.reset()` restores. */
    const defaultValue: string
    var value: string
    /** Whether the element has the class `error`. */
    var error: bool

    constructor (kind: string, defaultValue: string)
      ensures this.kind == kind && this.defaultValue == defaultValue
      ensures value == defaultValue && !error
    {
      this.kind := kind;
      this.defaultValue := defaultValue;
      value := defaultValue;
      error := false;
    }
  }

  class ContactForm {
    /** The form's inputs and textareas in document order. */
    const fields: seq<Field>
    /** The submit button's label and `disabled` flag. */
    var buttonText: string
    var buttonDisabled: bool
    /** The form's `.form-message` children in document order. The page is
        taken to have no other `.form-message` element, so the first one in
        the document, which `showMessage` removes, is the first of these. */
    var messages: seq<StatusMessage>
    /** The serial the next message will get. */
    var nextSerial: nat

    /** At most one status message is shown, and every shown message was
        created before the next one will be. */
    ghost predicate Valid()
      reads this
    {
      && |messages| <= 1
      && forall m :: m in messages ==> m.serial < nextSerial
    }

    /** The field passes `validateField` with its current value. */
    static predicate IsValid(f: Field)
      reads f
    {
      FieldValid(f.value, f.kind)
    }

    /** The field's `error` marker says whether it is invalid. */
    static predicate Marked(f: Field)
      reads f
    {
      f.error == !IsValid(f)
    }

    /** Every field currently passes `validateField`. */
    predicate AllFieldsValid()
      reads this, fields
    {
      forall k :: 0 <= k < |fields| ==> IsValid(fields[k])
    }

    constructor (fields: seq<Field>, buttonText: string)
      ensures this.fields == fields && this.buttonText == buttonText
      ensures !buttonDisabled && messages == []
      ensures Valid()
    {
      this.fields := fields;
      this.buttonText := buttonText;
      buttonDisabled := false;
      messages := [];
      nextSerial := 0;
    }

    /** `validateField` (main.js:251-270): the field is marked `error` exactly
        when it is invalid; nothing else changes. */
    method ValidateField(field: Field) returns (isValid: bool)
      modifies field`error
      ensures isValid == IsValid(field)
      ensures field.error == !isValid
    {
      var value := Trim(field.value);
      isValid := true;
      field.error := false;
      if value == [] {
        isValid := false;
      } else if field.kind == "email" {
        isValid := IsEmail(value);
      }
      if !isValid {
        field.error := true;
      }
    }

    /** `clearErrors` (main.js:272-274), run on every `input` event. */
    method ClearErrors(field: Field)
      modifies field`error
      ensures !field.error
    {
      field.error := false;
    }

    /** `showMessage` (main.js:321-338): the first existing message is removed
        and the new one appended; returns the new message's serial, the one its
        removal timer passes to `DismissMessage`. */
    method ShowMessage(text: string, kind: MessageKind) returns (serial: nat)
      modifies this`messages, this`nextSerial
      ensures serial == old(nextSerial) && nextSerial == old(nextSerial) + 1
      ensures messages == (if old(messages) == [] then [] else old(messages)[1..])
                          + [StatusMessage(serial, text, kind)]
      ensures old(Valid()) ==> Valid() && messages == [StatusMessage(serial, text, kind)]
    {
      if |messages| > 0 {
        messages := messages[1..];
      }
      serial := nextSerial;
      nextSerial := nextSerial + 1;
      messages := messages + [StatusMessage(serial, text, kind)];
    }

    /** The 5-second timer of `showMessage` (main.js:335-337): removes the
        message it was created for if that one is still shown, and no other. */
    method DismissMessage(serial: nat)
      modifies this`messages
      ensures old(Valid()) ==> Valid()
      ensures messages == Without(old(messages), serial)
    {
      messages := Without(messages, serial);
    }

    /** `form.reset()`: every field gets back its default value; the `error`
        classes stay as they are. */
    method Reset()
      modifies fields
      ensures forall k :: 0 <= k < |fields| ==> fields[k].value == fields[k].defaultValue
      ensures forall k :: 0 <= k < |fields| ==> fields[k].error == old(fields[k].error)
    {
      for i := 0 to |fields|
        invariant forall k :: 0 <= k < i ==> fields[k].value == fields[k].defaultValue
        invariant forall k :: 0 <= k < |fields| ==> fields[k].error == old(fields[k].error)
      {
        fields[i].value := fields[i].defaultValue;
      }
    }

    /** The part of `submitForm` before its `await` (main.js:300-305). */
    method StartSubmit() returns (originalText: string)
      modifies this`buttonText, this`buttonDisabled
      ensures originalText == old(buttonText)
      ensures buttonText == SendingLabel && buttonDisabled
    {
      originalText := buttonText;
      buttonText := SendingLabel;
      buttonDisabled := true;
    }

    /** The part of `submitForm` after the simulated request resolves
        (main.js:311-317): success message, form reset, button restored. */
    method FinishSubmit(originalText: string)
      requires Valid()
      modifies this, fields
      ensures Valid()
      ensures buttonText == originalText && !buttonDisabled
      ensures messages == [StatusMessage(old(nextSerial), SuccessText, Success)]
      ensures forall k :: 0 <= k < |fields| ==> fields[k].value == fields[k].defaultValue
      ensures forall k :: 0 <= k < |fields| ==> fields[k].error == old(fields[k].error)
    {
      var _ := ShowMessage(SuccessText, Success);
      Reset();
      buttonText := originalText;
      buttonDisabled := false;
    }

    /** `submitForm` (main.js:299-319) with its 2000 ms wait elided: the button
        ends with its original label and enabled. */
    method SubmitForm()
      requires Valid()
      modifies this, fields
      ensures Valid()
      ensures buttonText == old(buttonText) && !buttonDisabled
      ensures messages == [StatusMessage(old(nextSerial), SuccessText, Success)]
      ensures forall k :: 0 <= k < |fields| ==> fields[k].value == fields[k].defaultValue
      ensures forall k :: 0 <= k < |fields| ==> fields[k].error == old(fields[k].error)
    {
      var originalText := StartSubmit();
      FinishSubmit(originalText);
    }

    /** The validation loop of `handleSubmit` (main.js:283-290): every field
        is validated, none skipped, and the result is their conjunction. */
    method ValidateAll() returns (isFormValid: bool)
      modifies fields
      ensures isFormValid == old(AllFieldsValid())
      ensures forall k :: 0 <= k < |fields| ==> fields[k].value == old(fields[k].value)
      ensures forall k :: 0 <= k < |fields| ==>
                fields[k].error == !IsValid(fields[k])
    {
      isFormValid := true;
      var i := 0;
      while i < |fields|
        invariant 0 <= i <= |fields|
        invariant forall k :: 0 <= k < |fields| ==> fields[k].value == old(fields[k].value)
        invariant forall k :: 0 <= k < i ==> Marked(fields[k])
        invariant isFormValid <==> forall k :: 0 <= k < i ==> IsValid(fields[k])
      {
        var ok := ValidateField(fields[i]);
        if !ok {
          isFormValid := false;
        }
        i := i + 1;
      }
    }

    /** `handleSubmit` (main.js:276-297): the form is submitted exactly when
        every field is valid; otherwise the validation message is shown and
        the button left alone. Every field's marker is refreshed either way. */
    method HandleSubmit()
      requires Valid()
      modifies this, fields
      ensures Valid()
      ensures forall k :: 0 <= k < |fields| ==>
                fields[k].error == !FieldValid(old(fields[k].value), fields[k].kind)
      ensures old(AllFieldsValid()) ==>
                && buttonText == old(buttonText) && !buttonDisabled
                && messages == [StatusMessage(old(nextSerial), SuccessText, Success)]
                && forall k :: 0 <= k < |fields| ==> fields[k].value == fields[k].defaultValue
      ensures !old(AllFieldsValid()) ==>
                && buttonText == old(buttonText) && buttonDisabled == old(buttonDisabled)
                && messages == [StatusMessage(old(nextSerial), ValidationFailedText, Error)]
                && forall k :: 0 <= k < |fields| ==> fields[k].value == old(fields[k].value)
    {
      var isFormValid := ValidateAll();
      if isFormValid {
        SubmitForm();
      } else {
        var _ := ShowMessage(ValidationFailedText, Error);
      }
    }
  }
}
