/** Recognition of an action comment and of its prompt sub-command: the
    chain of `find(...) == 0` tests at the top of `handle_macro_response`. */
module ActionComment {
  import opened CppString

  /** The marker every action comment starts with, stripped by `substr(10)`. */
  const Marker: string := "// action:"
  const MarkerLength: nat := 10

  const KwBegin: string := "prompt_begin"
  const KwText: string := "prompt_text"
  const KwFooter: string := "prompt_footer_button"
  const KwShow: string := "prompt_show"
  const KwEnd: string := "prompt_end"

  /** The branch of the handler a console line selects. The sub-commands that
      read their arguments carry the whole text after the marker, on which the
      handler applies its fixed offsets. */
  datatype Action =
    | NotAction
    | Begin(command: string)
    | Text(command: string)
    | FooterButton(command: string)
    | Show
    | End
    | Unsupported(command: string)

  /** One of the five prompt keywords starts `command`. */
  predicate IsPromptCommand(command: string) {
    KwBegin <= command || KwText <= command || KwFooter <= command || KwShow <= command || KwEnd <= command
  }

  /** The character at index `i` of a string that starts with `k` is `k[i]`. */
  lemma PrefixChar(s: string, k: string, i: nat)
    requires k <= s && i < |k|
    ensures s[i] == k[i]
  {
  }

  /** The five keywords differ at index 7, so at most one of them starts a
      given command. */
  lemma KeywordsExclusive(command: string)
    ensures KwBegin <= command ==> !(KwText <= command || KwFooter <= command || KwShow <= command || KwEnd <= command)
    ensures KwText <= command ==> !(KwFooter <= command || KwShow <= command || KwEnd <= command)
    ensures KwFooter <= command ==> !(KwShow <= command || KwEnd <= command)
    ensures KwShow <= command ==> !(KwEnd <= command)
  {
    if KwBegin <= command { PrefixChar(command, KwBegin, 7); }
    if KwText <= command { PrefixChar(command, KwText, 7); }
    if KwFooter <= command { PrefixChar(command, KwFooter, 7); }
    if KwShow <= command { PrefixChar(command, KwShow, 7); }
  }

  /** Classifies one console line: the first keyword, in the handler's order,
      that starts the text after the marker. */
  function Classify(line: string): (a: Action)
    ensures a.NotAction? <==> !(Marker <= line)
    ensures a.Begin? || a.Text? || a.FooterButton? || a.Unsupported? ==> a.command == line[MarkerLength..]
  {
    if !(Marker <= line) then NotAction
    else
      var command := line[MarkerLength..];
      if KwBegin <= command then Begin(command)
      else if KwText <= command then Text(command)
      else if KwFooter <= command then FooterButton(command)
      else if KwShow <= command then Show
      else if KwEnd <= command then End
      else Unsupported(command)
  }

  /** A line is an action comment exactly when it starts with the marker (no
      other spacing is tolerated); the keyword is then matched as a prefix of
      the rest, so `prompt_beginning` still selects `prompt_begin`, and the
      order of the tests does not matter because no two keywords can start the
      same command. The handler writes each prefix test as `find(k) == 0`, the
      same test by `FindZeroIsPrefix`. */
  lemma ClassifyCases(line: string)
    ensures Classify(line).Begin? <==> Marker <= line && KwBegin <= line[MarkerLength..]
    ensures Classify(line).Text? <==> Marker <= line && KwText <= line[MarkerLength..]
    ensures Classify(line).FooterButton? <==> Marker <= line && KwFooter <= line[MarkerLength..]
    ensures Classify(line).Show? <==> Marker <= line && KwShow <= line[MarkerLength..]
    ensures Classify(line).End? <==> Marker <= line && KwEnd <= line[MarkerLength..]
    ensures Classify(line).Unsupported? <==> Marker <= line && !IsPromptCommand(line[MarkerLength..])
  {
    if Marker <= line {
      KeywordsExclusive(line[MarkerLength..]);
    }
  }
}
