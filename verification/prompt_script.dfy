/** The lines a printer macro emits to raise a dialog, and what the handler
    makes of them: a well-formed begin / text / buttons / show sequence
    rebuilds exactly the dialog it describes, and an end line takes it down. */
module PromptScript {
  import opened Options
  import opened CppString
  import opened PromptRecord
  import opened ActionComment
  import opened FooterButton
  import opened Accumulator

  function BeginLine(header: string): (line: string) {
    Marker + (KwBegin + " " + header)
  }

  function TextLine(text: string): (line: string) {
    Marker + (KwText + " " + text)
  }

  const ShowLine: string := Marker + KwShow
  const EndLine: string := Marker + KwEnd

  /** The style word that yields a button type: only "primary" gives 1. */
  function StyleName(kind: int): (style: string) {
    if kind == 1 then "primary" else DefaultStyle
  }

  /** `label|command|style` for a button. */
  function ButtonLine(b: Button): (line: string) {
    Marker + (KwFooter + [' '] + b.text + "|" + b.command + "|" + StyleName(b.kind))
  }

  function ButtonLines(bs: seq<Button>): (lines: seq<string>)
    ensures |lines| == |bs|
  {
    if |bs| == 0 then [] else [ButtonLine(bs[0])] + ButtonLines(bs[1..])
  }

  /** The complete dialog request. */
  function Script(header: string, text: string, bs: seq<Button>): (lines: seq<string>) {
    [BeginLine(header), TextLine(text)] + ButtonLines(bs) + [ShowLine]
  }

  /** Bound on a button's fields that keeps every offset of its line inside
      a 32-bit `int`. */
  const FieldBound: int := 0x7FFF_0000

  /** A button the line grammar can carry and the record can hold unchanged. */
  predicate Encodable(b: Button) {
    && Plain(b.text) && Plain(b.command)
    && '|' !in b.text && '|' !in b.command
    && 0 <= b.kind <= 1
    && |b.text| + |b.command| < FieldBound
  }

  /** One button line appends that very button. */
  lemma StepButtonLine(p: PromptData, b: Button)
    requires Encodable(b)
    ensures Step(p, ButtonLine(b)) == Next(p.(buttons := p.buttons + [b]), false)
  {
    StepButtonThree(p, ' ', b.text, b.command, StyleName(b.kind));
    CStringOfPlain(b.text);
    CStringOfPlain(b.command);
    assert StyleType(StyleName(b.kind)) == b.kind;
    assert Button(CString(b.text), CString(b.command), StyleType(StyleName(b.kind))) == b;
  }

  /** `line` is a footer-button action whose fields make the button `b`. */
  predicate AppendsButton(line: string, b: Button)
  {
    var a := Classify(line);
    a.FooterButton? && SplitFields(a.command).Some? && NewButton(SplitFields(a.command).value) == b
  }

  /** Each line of `lines` appends the button at the same position of `bs`. */
  predicate EachAppends(lines: seq<string>, bs: seq<Button>)
    decreases |bs|
  {
    |lines| == |bs| && (|bs| == 0 || (AppendsButton(lines[0], bs[0]) && EachAppends(lines[1..], bs[1..])))
  }

  /** The button lines append their buttons in order. */
  lemma RunButtonLines(p: PromptData, bs: seq<Button>)
    requires forall i :: 0 <= i < |bs| ==> Encodable(bs[i])
    ensures Run(p, ButtonLines(bs)) == Next(p.(buttons := p.buttons + bs), false)
  {
    ButtonLinesAppend(bs);
    RunAppendsButtons(p, ButtonLines(bs), bs);
  }

  /** Every button line appends its own button. */
  lemma {:induction false} ButtonLinesAppend(bs: seq<Button>)
    requires forall i :: 0 <= i < |bs| ==> Encodable(bs[i])
    ensures EachAppends(ButtonLines(bs), bs)
    decreases |bs|
  {
    if |bs| > 0 {
      assert forall i :: 0 <= i < |bs| - 1 ==> bs[1..][i] == bs[i + 1];
      ButtonLinesAppend(bs[1..]);
      ButtonLinesAppendCons(bs);
    }
  }

  /** The inductive step of `ButtonLinesAppend`. */
  lemma ButtonLinesAppendCons(bs: seq<Button>)
    requires |bs| > 0 && Encodable(bs[0]) && EachAppends(ButtonLines(bs[1..]), bs[1..])
    ensures EachAppends(ButtonLines(bs), bs)
  {
    ButtonLineAppends(bs[0]);
    EachAppendsCons(ButtonLine(bs[0]), ButtonLines(bs[1..]), bs[0], bs[1..]);
    assert [bs[0]] + bs[1..] == bs;
  }

  /** One more appending line in front keeps every line appending. */
  lemma EachAppendsCons(line: string, lines: seq<string>, b: Button, bs: seq<Button>)
    requires AppendsButton(line, b) && EachAppends(lines, bs)
    ensures EachAppends([line] + lines, [b] + bs)
  {
    assert ([line] + lines)[0] == line && ([line] + lines)[1..] == lines;
    assert ([b] + bs)[0] == b && ([b] + bs)[1..] == bs;
  }

  /** A button line is a footer-button action that rebuilds its button. */
  lemma ButtonLineAppends(b: Button)
    requires Encodable(b)
    ensures AppendsButton(ButtonLine(b), b)
  {
    var c := KwFooter + [' '] + b.text + "|" + b.command + "|" + StyleName(b.kind);
    assert ButtonLine(b) == Marker + c;
    assert Marker + KwFooter <= Marker + c;
    MarkerThen(Marker + c, KwFooter);
    ClassifyCases(Marker + c);
    assert (Marker + c)[MarkerLength..] == c;
    assert Classify(Marker + c) == FooterButton(c);
    SplitThree(' ', b.text, b.command, StyleName(b.kind));
    CStringOfPlain(b.text);
    CStringOfPlain(b.command);
    assert StyleType(StyleName(b.kind)) == b.kind;
  }

  /** Lines that each append one button, run in order, append all of them. */
  lemma {:induction false} RunAppendsButtons(p: PromptData, lines: seq<string>, bs: seq<Button>)
    requires EachAppends(lines, bs)
    ensures Run(p, lines) == Next(p.(buttons := p.buttons + bs), false)
    decreases |bs|
  {
    if |bs| == 0 {
      assert p.buttons + bs == p.buttons;
    } else {
      RunAppendsFirst(p, lines, bs[0]);
      AppendInTwo(p, bs);
      if |bs| > 1 {
        RunAppendsButtons(p.(buttons := p.buttons + [bs[0]]), lines[1..], bs[1..]);
      }
    }
  }

  /** Appending the first button and then the rest appends them all. */
  lemma AppendInTwo(p: PromptData, bs: seq<Button>)
    requires |bs| > 0
    ensures var q := p.(buttons := p.buttons + [bs[0]]);
            q.(buttons := q.buttons + bs[1..]) == p.(buttons := p.buttons + bs) &&
            (|bs| == 1 ==> q == p.(buttons := p.buttons + bs))
  {
    assert bs == [bs[0]] + bs[1..];
    assert (p.buttons + [bs[0]]) + bs[1..] == p.buttons + bs;
  }

  /** An appending line appends, whatever the record before it. */
  lemma StepAppends(p: PromptData, line: string, b: Button)
    requires AppendsButton(line, b)
    ensures Step(p, line) == Next(p.(buttons := p.buttons + [b]), false)
  {
    var c := Classify(line).command;
    assert Classify(line) == FooterButton(c);
    assert Step(p, line) == Apply(p, FooterButton(c));
  }

  /** The first of several lines appends its button; the rest run from there. */
  lemma RunAppendsFirst(p: PromptData, lines: seq<string>, b: Button)
    requires |lines| > 0 && AppendsButton(lines[0], b)
    ensures var q := p.(buttons := p.buttons + [b]);
            Run(p, lines) == if |lines| == 1 then Next(q, false) else Run(q, lines[1..])
  {
    var q := p.(buttons := p.buttons + [b]);
    StepAppends(p, lines[0], b);
    if |lines| > 1 {
      RunCons(p, lines[0], lines[1..], q);
      assert lines == [lines[0]] + lines[1..];
    }
  }

  /** A begin line sets the header and drops everything else. */
  lemma StepBeginLine(p: PromptData, header: string)
    requires Plain(header)
    ensures Step(p, BeginLine(header)) == Next(PromptData(Some(header), None, []), false)
  {
    assert Marker + KwBegin <= BeginLine(header);
    StepBegin(p, BeginLine(header));
    assert BeginLine(header)[MarkerLength + HeaderOffset..] == header;
    CStringOfPlain(header);
  }

  /** A text line sets the text. */
  lemma StepTextLine(p: PromptData, text: string)
    requires Plain(text)
    ensures Step(p, TextLine(text)) == Next(p.(text := Some(text)), false)
  {
    assert Marker + KwText <= TextLine(text);
    StepText(p, TextLine(text));
    assert TextLine(text)[MarkerLength + TextOffset..] == text;
    CStringOfPlain(text);
  }

  /** The opening pair of lines leaves header and text set and no buttons. */
  lemma RunOpening(p: PromptData, header: string, text: string)
    requires Plain(header) && Plain(text)
    ensures Run(p, [BeginLine(header), TextLine(text)]) == Next(PromptData(Some(header), Some(text), []), false)
  {
    var opening := [BeginLine(header), TextLine(text)];
    StepBeginLine(p, header);
    StepTextLine(PromptData(Some(header), None, []), text);
    RunFirst(p, opening);
    assert opening[1..] == [TextLine(text)];
  }

  /** A begin / text / buttons / show sequence, from any record, shows the
      dialog made of exactly that header, that text and those buttons in
      arrival order. */
  lemma ScriptShowsDialog(p: PromptData, header: string, text: string, bs: seq<Button>)
    requires Plain(header) && Plain(text)
    requires forall i :: 0 <= i < |bs| ==> Encodable(bs[i])
    ensures Run(p, Script(header, text, bs)) == Next(PromptData(Some(header), Some(text), bs), true)
  {
    var opening := [BeginLine(header), TextLine(text)];
    var texted := PromptData(Some(header), Some(text), []);
    var built := PromptData(Some(header), Some(text), bs);
    RunOpening(p, header, text);
    StepShow(built, ShowLine);
    assert Run(built, [ShowLine]) == Next(built, true);
    if |bs| == 0 {
      assert Script(header, text, bs) == opening + [ShowLine];
      RunAppend(p, opening, [ShowLine]);
    } else {
      RunButtonLines(texted, bs);
      assert texted.(buttons := texted.buttons + bs) == built;
      RunAppend(p, opening, ButtonLines(bs));
      assert Script(header, text, bs) == (opening + ButtonLines(bs)) + [ShowLine];
      RunAppend(p, opening + ButtonLines(bs), [ShowLine]);
    }
  }

  /** Pressing button `i` of the shown dialog sends the command that button
      was declared with, unchanged. */
  lemma DispatchAfterScript(p: PromptData, header: string, text: string, bs: seq<Button>, i: nat)
    requires Plain(header) && Plain(text)
    requires forall k :: 0 <= k < |bs| ==> Encodable(bs[k])
    requires i < |bs|
    ensures i < |Run(p, Script(header, text, bs)).after.buttons|
    ensures Dispatch(Run(p, Script(header, text, bs)).after, i) == bs[i].command
  {
    ScriptShowsDialog(p, header, text, bs);
  }

  /** An end line after a shown dialog leaves no header, no text and no
      buttons. */
  lemma ScriptThenEnd(p: PromptData, header: string, text: string, bs: seq<Button>)
    requires Plain(header) && Plain(text)
    requires forall i :: 0 <= i < |bs| ==> Encodable(bs[i])
    ensures Run(p, Script(header, text, bs) + [EndLine]) == Next(Empty, false)
  {
    ScriptShowsDialog(p, header, text, bs);
    RunAppend(p, Script(header, text, bs), [EndLine]);
    StepEnd(PromptData(Some(header), Some(text), bs), EndLine);
  }

  /** Every record reachable from the initial one holds only button types 0
      and 1: the info, warning and error types are never produced. */
  lemma ReachableKinds(lines: seq<string>, i: nat)
    requires i < |Run(Empty, lines).after.buttons|
    ensures Run(Empty, lines).after.buttons[i].kind in {0, 1}
  {
    RunKeepsValid(Empty, lines);
  }

  /** `prompt_footer_button Cancel|CANCEL_MACRO` appends label "Cancel",
      command "CANCEL_MACRO", type 0. */
  lemma ExampleCancel(p: PromptData)
    ensures Step(p, Marker + (KwFooter + [' '] + "Cancel" + "|" + "CANCEL_MACRO"))
            == Next(p.(buttons := p.buttons + [Button("Cancel", "CANCEL_MACRO", 0)]), false)
  {
    assert Plain("Cancel") && Plain("CANCEL_MACRO");
    StepButtonTwo(p, ' ', "Cancel", "CANCEL_MACRO");
  }

  /** `prompt_footer_button Continue|RESUME|warning`: the style is read, but
      the inverted test turns "warning" into type 0. */
  lemma ExampleWarning(p: PromptData)
    ensures Step(p, Marker + (KwFooter + [' '] + "Continue" + "|" + "RESUME" + "|" + "warning"))
            == Next(p.(buttons := p.buttons + [Button("Continue", "RESUME", 0)]), false)
  {
    assert Plain("Continue") && Plain("RESUME");
    StepButtonThree(p, ' ', "Continue", "RESUME", "warning");
    assert "warning"[0] != "primary"[0];
  }

  /** `prompt_footer_button OnlyLabel`: the command is the whole action text. */
  lemma ExampleOnlyLabel(p: PromptData)
    ensures Step(p, Marker + (KwFooter + [' '] + "OnlyLabel"))
            == Next(p.(buttons := p.buttons + [Button("OnlyLabel", KwFooter + [' '] + "OnlyLabel", 0)]), false)
  {
    assert Plain("OnlyLabel");
    StepButtonNoBar(p, ' ', "OnlyLabel");
  }
}
