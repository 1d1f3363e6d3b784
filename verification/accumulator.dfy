/** `handle_macro_response` as a pure step on the prompt record, the fold of
    that step over a stream of console lines, and the command lookup done
    when a dialog button is pressed. */
module Accumulator {
  import opened Options
  import opened CppString
  import opened PromptRecord
  import opened ActionComment
  import opened FooterButton

  /** `command.substr(13)`: `prompt_begin` and one separator character. */
  const HeaderOffset: nat := 13

  /** `command.substr(12)`: `prompt_text` and one separator character. */
  const TextOffset: nat := 12

  /** What handling one line leads to. `Next` carries the record afterwards
      and whether the line asked for the dialog to be shown, which is then
      built from that record. `OutOfRange` is the `std::out_of_range` that
      escapes the handler when a `substr` starts past the end; it carries
      the record as the exception left it. */
  datatype Outcome = Next(after: PromptData, shows: bool) | OutOfRange(after: PromptData)

  /** The button stored for split fields: label and command are copied into
      C strings, the style is turned into its type. */
  function NewButton(f: Fields): (b: Button)
    ensures Plain(b.text) && Plain(b.command) && 0 <= b.kind <= 1
    ensures b.kind == 1 <==> f.style == "primary"
  {
    Button(CString(f.text), CString(f.command), StyleType(f.style))
  }

  /** The branch bodies of the handler. Only `prompt_show` asks for the
      dialog; `prompt_begin` and `prompt_end` start from the empty record,
      the other branches change at most their own field; a throw comes only
      from the three branches that call `substr`, and the one of
      `prompt_begin` leaves the record already emptied. */
  function Apply(p: PromptData, a: Action): (r: Outcome)
    ensures r.Next? && r.shows <==> a.Show?
    ensures a.NotAction? || a.Show? || a.Unsupported? ==> r.Next? && r.after == p
    ensures a.End? ==> r == Next(Empty, false)
    ensures a.Begin? ==> r.after.text.None? && r.after.buttons == []
    ensures a.Begin? && r.Next? ==> r.after.header.Some? && Plain(r.after.header.value)
    ensures a.Text? ==> r.after.header == p.header && r.after.buttons == p.buttons
    ensures a.Text? && r.Next? ==> r.after.text.Some? && Plain(r.after.text.value)
    ensures a.FooterButton? ==> r.after.header == p.header && r.after.text == p.text
    ensures a.FooterButton? && r.Next? ==> |r.after.buttons| == |p.buttons| + 1 && r.after.buttons[..|p.buttons|] == p.buttons
    ensures a.FooterButton? && r.OutOfRange? ==> r.after == p
    ensures r.OutOfRange? ==> (a.Begin? && r.after == Empty) || (a.Text? && r.after == p) || a.FooterButton?
  {
    match a
    case NotAction => Next(p, false)
    case Begin(command) =>
      // pdata_clean runs before substr(13): a throw leaves the record emptied
      (match Substr(command, HeaderOffset, Npos)
       case None => OutOfRange(Empty)
       case Some(h) => Next(Empty.(header := Some(CString(h))), false))
    case Text(command) =>
      (match Substr(command, TextOffset, Npos)
       case None => OutOfRange(p)
       case Some(t) => Next(p.(text := Some(CString(t))), false))
    case FooterButton(command) =>
      (match SplitFields(command)
       case None => OutOfRange(p)
       case Some(f) => Next(p.(buttons := p.buttons + [NewButton(f)]), false))
    case Show => Next(p, true)
    case End => Next(Empty, false)
    case Unsupported(_) => Next(p, false)
  }

  /** Handling one console line. A line that is not an action comment is
      ignored, and a line that shows the dialog does not change the record. */
  function Step(p: PromptData, line: string): (r: Outcome)
    ensures !(Marker <= line) ==> r == Next(p, false)
    ensures r.Next? && r.shows ==> r.after == p && Marker + KwShow <= line
  {
    Apply(p, Classify(line))
  }

  /** Handling a stream of lines in order. The handler is left at the first
      line that throws; otherwise the outcome is that of the last line. */
  function Run(p: PromptData, lines: seq<string>): (r: Outcome)
    ensures |lines| == 0 ==> r == Next(p, false)
    ensures r.Next? && r.shows ==> |lines| > 0 && Marker + KwShow <= lines[|lines| - 1]
    decreases |lines|
  {
    if |lines| == 0 then Next(p, false)
    else
      var o := Step(p, lines[0]);
      if o.OutOfRange? || |lines| == 1 then o
      else Run(o.after, lines[1..])
  }

  /** The activation callback: the command of the pressed button, sent
      unchanged. The handler does not check the index against `button_size`,
      so the index is required to be in range. */
  function Dispatch(p: PromptData, i: nat): (command: string)
    requires i < |p.buttons|
    ensures Valid(p) ==> Plain(command)
  {
    p.buttons[i].command
  }

  lemma CStringOfPlainIf(s: string)
    ensures Plain(s) ==> CString(s) == s
  {
    if Plain(s) { CStringOfPlain(s); }
  }

  /** A line that starts with the marker and a keyword classifies to that
      keyword's branch with the text after the marker. */
  lemma MarkerThen(line: string, k: string)
    requires Marker + k <= line
    ensures Marker <= line && k <= line[MarkerLength..]
  {
    assert line[..MarkerLength] == (Marker + k)[..MarkerLength];
    assert line[MarkerLength..][..|k|] == (Marker + k)[MarkerLength..];
  }

  /** `prompt_begin`: the record is emptied, then the header is set to the
      text after offset 13; the bare keyword throws with the record emptied. */
  lemma StepBegin(p: PromptData, line: string)
    requires Marker + KwBegin <= line
    ensures |line| == MarkerLength + |KwBegin| ==> Step(p, line) == OutOfRange(Empty)
    ensures |line| > MarkerLength + |KwBegin| ==>
              Step(p, line) == Next(PromptData(Some(CString(line[MarkerLength + HeaderOffset..])), None, []), false)
  {
    MarkerThen(line, KwBegin);
    var c := line[MarkerLength..];
    assert Step(p, line) == Apply(p, Begin(c));
    if |c| >= HeaderOffset {
      assert Substr(c, HeaderOffset, Npos) == Some(c[HeaderOffset..]);
      assert c[HeaderOffset..] == line[MarkerLength + HeaderOffset..];
    } else {
      assert Substr(c, HeaderOffset, Npos) == None;
    }
  }

  /** A `prompt_begin` pre-empts whatever came before: its outcome does not
      depend on the record it is applied to. */
  lemma BeginPreempts(p: PromptData, q: PromptData, line: string)
    requires Marker + KwBegin <= line
    ensures Step(p, line) == Step(q, line)
    ensures |Step(p, line).after.buttons| == 0 && Step(p, line).after.text == None
  {
    StepBegin(p, line);
    StepBegin(q, line);
  }

  /** `prompt_text`: only the text changes, to the text after offset 12; the
      bare keyword throws and leaves the record as it was. */
  lemma StepText(p: PromptData, line: string)
    requires Marker + KwText <= line
    ensures |line| == MarkerLength + |KwText| ==> Step(p, line) == OutOfRange(p)
    ensures |line| > MarkerLength + |KwText| ==>
              Step(p, line) == Next(p.(text := Some(CString(line[MarkerLength + TextOffset..]))), false)
  {
    MarkerThen(line, KwText);
    ClassifyCases(line);
    var c := line[MarkerLength..];
    assert Step(p, line) == Apply(p, Text(c));
    if |c| >= TextOffset {
      assert Substr(c, TextOffset, Npos) == Some(c[TextOffset..]);
      assert c[TextOffset..] == line[MarkerLength + TextOffset..];
    } else {
      assert Substr(c, TextOffset, Npos) == None;
    }
  }

  /** Of two `prompt_text` lines in a row only the last one is kept. */
  lemma TextLastWins(p: PromptData, first: string, second: string)
    requires Marker + KwText <= first && |first| > MarkerLength + |KwText|
    requires Marker + KwText <= second && |second| > MarkerLength + |KwText|
    ensures Step(Step(p, first).after, second) == Step(p, second)
  {
    StepText(p, first);
    StepText(Step(p, first).after, second);
    StepText(p, second);
  }

  /** `prompt_footer_button`: exactly one button is appended at the end and
      nothing else changes; the bare keyword throws and changes nothing. */
  lemma StepFooter(p: PromptData, line: string)
    requires Marker + KwFooter <= line && |line| < MarkerLength + IntLimit
    ensures |line| == MarkerLength + |KwFooter| ==> Step(p, line) == OutOfRange(p)
    ensures |line| > MarkerLength + |KwFooter| ==>
              && SplitFields(line[MarkerLength..]).Some?
              && Step(p, line) == Next(p.(buttons := p.buttons + [NewButton(SplitFields(line[MarkerLength..]).value)]), false)
  {
    MarkerThen(line, KwFooter);
    ClassifyCases(line);
    var c := line[MarkerLength..];
    assert Classify(line) == FooterButton(c);
  }

  /** A footer-button command whose split is known appends its button. */
  lemma StepFooterFields(p: PromptData, c: string, f: Fields)
    requires KwFooter <= c && |c| < IntLimit && SplitFields(c) == Some(f)
    ensures Step(p, Marker + c) == Next(p.(buttons := p.buttons + [NewButton(f)]), false)
  {
    assert Marker + KwFooter <= Marker + c;
    assert (Marker + c)[MarkerLength..] == c;
    StepFooter(p, Marker + c);
  }

  /** `label|command|style` appends the button with those fields. */
  lemma StepButtonThree(p: PromptData, sep: char, a: string, b: string, d: string)
    requires '|' !in a && '|' !in b
    requires |KwFooter + [sep] + a + "|" + b + "|" + d| < IntLimit
    ensures Step(p, Marker + (KwFooter + [sep] + a + "|" + b + "|" + d))
            == Next(p.(buttons := p.buttons + [Button(CString(a), CString(b), StyleType(d))]), false)
    ensures Plain(a) && Plain(b) ==>
              Step(p, Marker + (KwFooter + [sep] + a + "|" + b + "|" + d))
              == Next(p.(buttons := p.buttons + [Button(a, b, StyleType(d))]), false)
  {
    var c := KwFooter + [sep] + a + "|" + b + "|" + d;
    assert KwFooter <= c;
    SplitThree(sep, a, b, d);
    StepFooterFields(p, c, Fields(a, b, d));
    CStringOfPlainIf(a);
    CStringOfPlainIf(b);
  }

  /** `label|command` appends a button of type 0 (style "none"). */
  lemma StepButtonTwo(p: PromptData, sep: char, a: string, b: string)
    requires '|' !in a && '|' !in b
    requires |KwFooter + [sep] + a + "|" + b| < IntLimit
    ensures Step(p, Marker + (KwFooter + [sep] + a + "|" + b))
            == Next(p.(buttons := p.buttons + [Button(CString(a), CString(b), 0)]), false)
    ensures Plain(a) && Plain(b) ==>
              Step(p, Marker + (KwFooter + [sep] + a + "|" + b))
              == Next(p.(buttons := p.buttons + [Button(a, b, 0)]), false)
  {
    var c := KwFooter + [sep] + a + "|" + b;
    assert KwFooter <= c;
    SplitTwo(sep, a, b);
    StepFooterFields(p, c, Fields(a, b, DefaultStyle));
    DefaultStyleType();
    CStringOfPlainIf(a);
    CStringOfPlainIf(b);
  }

  /** A payload without `|` appends a button whose command is the whole
      action text, keyword included, and never the empty string. */
  lemma StepButtonNoBar(p: PromptData, sep: char, a: string)
    requires sep != '|' && '|' !in a
    requires |KwFooter + [sep] + a| < IntLimit
    ensures Step(p, Marker + (KwFooter + [sep] + a))
            == Next(p.(buttons := p.buttons + [Button(CString(a), CString(KwFooter + [sep] + a), 0)]), false)
    ensures Plain(a) && sep != '\0' ==>
              Step(p, Marker + (KwFooter + [sep] + a))
              == Next(p.(buttons := p.buttons + [Button(a, KwFooter + [sep] + a, 0)]), false)
    ensures CString(KwFooter + [sep] + a) != []
  {
    var c := KwFooter + [sep] + a;
    assert KwFooter <= c;
    SplitNoBar(sep, a);
    StepFooterFields(p, c, Fields(a, c, DefaultStyle));
    DefaultStyleType();
    CStringOfPlainIf(a);
    FooterCommandPlain(sep, a);
    CStringOfPlainIf(c);
    CStringKeepsFirst(c);
  }

  /** The keyword holds no NUL, so neither does a command built on it from
      NUL-free parts. */
  lemma FooterCommandPlain(sep: char, a: string)
    ensures Plain(a) && sep != '\0' ==> Plain(KwFooter + [sep] + a)
  {
    assert forall i :: 0 <= i < |KwFooter| ==> KwFooter[i] != '\0';
    assert KwFooter + [sep] + a == KwFooter + ([sep] + a);
  }

  /** `prompt_end` empties the record whatever it held. */
  lemma StepEnd(p: PromptData, line: string)
    requires Marker + KwEnd <= line
    ensures Step(p, line) == Next(Empty, false)
  {
    MarkerThen(line, KwEnd);
    ClassifyCases(line);
  }

  /** `prompt_show` asks for the dialog and leaves the record unchanged. */
  lemma StepShow(p: PromptData, line: string)
    requires Marker + KwShow <= line
    ensures Step(p, line) == Next(p, true)
  {
    MarkerThen(line, KwShow);
    ClassifyCases(line);
  }

  /** An action comment naming no prompt keyword changes nothing. */
  lemma StepUnsupported(p: PromptData, line: string)
    requires Marker <= line && !IsPromptCommand(line[MarkerLength..])
    ensures Step(p, line) == Next(p, false)
  {
  }

  /** A step that neither clears the record nor throws keeps every existing
      button at its index, so a pending activation still finds its command. */
  lemma DispatchStable(p: PromptData, line: string, i: nat)
    requires i < |p.buttons|
    requires Step(p, line).Next? && Step(p, line).after.buttons != []
    ensures i < |Step(p, line).after.buttons|
    ensures Dispatch(Step(p, line).after, i) == Dispatch(p, i)
  {
    var q := Step(p, line).after;
    if q.buttons != p.buttons {
      assert q.buttons[..|p.buttons|][i] == q.buttons[i];
    }
  }

  /** The buttons after a step: either all gone, or the old ones kept in
      place with at most one appended. */
  predicate ButtonsGrowOrClear(before: seq<Button>, after: seq<Button>) {
    || after == []
    || after == before
    || (|after| == |before| + 1 && after[..|before|] == before)
  }

  /** No line reorders, rewrites or removes single buttons: a step clears
      them all, keeps them, or appends one. */
  lemma StepButtonsGrowOrClear(p: PromptData, line: string)
    ensures ButtonsGrowOrClear(p.buttons, Step(p, line).after.buttons)
  {
    var q := Step(p, line).after;
    if |q.buttons| == |p.buttons| + 1 {
      var a := Classify(line);
      assert a.FooterButton?;
      assert q.buttons[..|p.buttons|] == p.buttons;
    }
  }

  /** Every step keeps the record valid: stored strings hold no NUL and
      button types are 0 or 1. */
  lemma StepKeepsValid(p: PromptData, line: string)
    requires Valid(p)
    ensures Valid(Step(p, line).after)
  {
    var q := Step(p, line).after;
    match Classify(line)
    case FooterButton(c) =>
      if SplitFields(c).Some? {
        var b := NewButton(SplitFields(c).value);
        assert q.buttons == p.buttons + [b];
        assert forall i :: 0 <= i < |q.buttons| ==> q.buttons[i] == if i < |p.buttons| then p.buttons[i] else b;
      }
    case _ =>
  }

  /** A stream keeps the record valid. */
  lemma {:induction false} RunKeepsValid(p: PromptData, lines: seq<string>)
    requires Valid(p)
    ensures Valid(Run(p, lines).after)
    decreases |lines|
  {
    if |lines| > 0 {
      StepKeepsValid(p, lines[0]);
      if Step(p, lines[0]).Next? && |lines| > 1 {
        RunKeepsValid(Step(p, lines[0]).after, lines[1..]);
      }
    }
  }

  /** Ordinary console output, without the marker, leaves the record alone. */
  lemma {:induction false} RunIgnoresOrdinaryLines(p: PromptData, lines: seq<string>)
    requires forall i :: 0 <= i < |lines| ==> !(Marker <= lines[i])
    ensures Run(p, lines) == Next(p, false)
    decreases |lines|
  {
    if |lines| > 1 {
      RunIgnoresOrdinaryLines(p, lines[1..]);
    }
  }

  /** The first line of a longer stream is handled first. */
  lemma RunFirst(p: PromptData, lines: seq<string>)
    requires |lines| >= 2 && Step(p, lines[0]).Next?
    ensures Run(p, lines) == Run(Step(p, lines[0]).after, lines[1..])
  {
  }

  /** A line that does not throw, followed by more lines. */
  lemma RunCons(p: PromptData, line: string, rest: seq<string>, q: PromptData)
    requires Step(p, line) == Next(q, false) && |rest| > 0
    ensures Run(p, [line] + rest) == Run(q, rest)
  {
    assert ([line] + rest)[0] == line;
    assert ([line] + rest)[1..] == rest;
  }

  /** Running two streams one after the other. */
  lemma {:induction false} RunAppend(p: PromptData, xs: seq<string>, ys: seq<string>)
    requires |xs| > 0 && |ys| > 0 && Run(p, xs).Next?
    ensures Run(p, xs + ys) == Run(Run(p, xs).after, ys)
    decreases |xs|
  {
    var o := Step(p, xs[0]);
    assert (xs + ys)[0] == xs[0];
    if |xs| > 1 {
      assert (xs + ys)[1..] == xs[1..] + ys;
      RunAppend(o.after, xs[1..], ys);
    } else {
      assert (xs + ys)[1..] == ys;
    }
  }
}
