/** The global `prompt_data` record that the action-comment handler fills in
    and the prompt dialog is built from. */
module PromptRecord {
  import opened Options

  /** One `prompt_button`: its label (`text`), the G-code script sent when it
      is pressed (`command`) and its numeric style (`type`, here `kind`). */
  datatype Button = Button(text: string, command: string, kind: int)

  /** `prompt_data`: the header and text are `char *` that may be NULL; the
      buttons are kept in arrival order and `button_size` is their count. */
  datatype PromptData = PromptData(header: Option<string>, text: Option<string>, buttons: seq<Button>)

  /** The record as the constructor's `calloc` creates it and as `pdata_clean`
      leaves it: no header, no text, no buttons. */
  const Empty: PromptData := PromptData(None, None, [])

  /** A string that a C string can hold unchanged. */
  predicate Plain(s: string) {
    '\0' !in s
  }

  predicate PlainOpt(o: Option<string>) {
    o.None? || Plain(o.value)
  }

  /** What holds of every record the handler ever builds: each stored string
      was read back through a C string, and every button style is 0 or 1. */
  predicate Valid(p: PromptData) {
    && PlainOpt(p.header)
    && PlainOpt(p.text)
    && forall i :: 0 <= i < |p.buttons| ==>
         Plain(p.buttons[i].text) && Plain(p.buttons[i].command) && 0 <= p.buttons[i].kind <= 1
  }
}
