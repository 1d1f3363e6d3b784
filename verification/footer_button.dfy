/** The `prompt_footer_button` branch: splitting `label|command|style` by
    fixed offset and `find("|")`, and mapping the style to a button type. */
module FooterButton {
  import opened Options
  import opened CppString
  import opened ActionComment

  /** `prompt_footer_button` and one separator character: the label starts here. */
  const LabelOffset: nat := 21

  /** The style a button gets when its payload has no second `|`. */
  const DefaultStyle: string := "none"

  datatype Fields = Fields(text: string, command: string, style: string)

  /** The field split of the handler, with its integer conversions spelled
      out: both `find` answers are stored into `int` (so `npos` becomes -1),
      the second search starts at `index_first + 1`, and every signed
      difference handed to `substr` is converted to `size_t`. `None` stands
      for the `std::out_of_range` that `substr(21, ...)` throws when the
      command is shorter than 21 characters. */
  function SplitFields(command: string): (r: Option<Fields>)
    ensures |command| < IntLimit ==> (r.None? <==> |command| < LabelOffset)
    ensures r.Some? ==> r.value.text <= command[LabelOffset..]
  {
    FindAsInt(command, "|", LabelOffset);
    var first := ToInt(Find(command, "|", LabelOffset));
    FindAsInt(command, "|", ToSize(ToInt(first + 1)));
    var second := ToInt(Find(command, "|", ToSize(ToInt(first + 1))));
    var caption :- Substr(command, LabelOffset, ToSize(ToInt(first - LabelOffset)));
    if second > 0 then
      // Neither `substr` below can throw: the second `find` only answers an
      // index when it started inside the string.
      match (Substr(command, ToSize(ToInt(first + 1)), ToSize(ToInt(second - first - 1))),
             Substr(command, ToSize(ToInt(second + 1)), ToSize(|command| - ToSize(second) - 1)))
      case (Some(cmd), Some(style)) => Some(Fields(caption, cmd, style))
      case _ => None
    else
      var cmd :- Substr(command, ToSize(ToInt(first + 1)), Npos);
      Some(Fields(caption, cmd, DefaultStyle))
  }

  /** The style-to-type chain as written. `compare` answers 0 on equality, so
      each test fires when the style is NOT the named one. */
  function StyleType(style: string): (r: int)
    ensures 0 <= r <= 4
    ensures r == 1 <==> style == "primary"
    ensures r != 1 ==> r == 0
  {
    if style != "primary" then 0
    else if style != "secondary" then 1
    else if style != "info" then 2
    else if style != "warning" then 3
    else if style != "error" then 4
    else 0
  }

  /** The default style is not "primary", so it gives type 0. */
  lemma DefaultStyleType()
    ensures StyleType(DefaultStyle) == 0
  {
    assert DefaultStyle[0] != "primary"[0];
  }

  /** The mapping the order of the branches spells out: primary 0, secondary
      1, info 2, warning 3, error 4, anything else 0. */
  function IntendedStyleType(style: string): (r: int)
    ensures 0 <= r <= 4
  {
    if style == "primary" then 0
    else if style == "secondary" then 1
    else if style == "info" then 2
    else if style == "warning" then 3
    else if style == "error" then 4
    else 0
  }

  /** The inverted tests agree with the intended mapping exactly on the
      styles that name none of the five types. */
  lemma StyleTypeInverted(style: string)
    ensures StyleType(style) == IntendedStyleType(style)
            <==> style !in {"primary", "secondary", "info", "warning", "error"}
  {
  }

  /** `s.find("|", from)` finds the first bar at or after `from`. */
  lemma FindBarAt(s: string, from: nat, k: nat)
    requires from <= k < |s| && s[k] == '|'
    requires forall j :: from <= j < k ==> s[j] != '|'
    ensures Find(s, "|", from) == k
  {
    OccursAtChar(s, '|', k);
    forall j | from <= j < k ensures !OccursAt(s, "|", j) {
      OccursAtChar(s, '|', j);
    }
  }

  /** With no bar at or after `from`, `find` answers `npos`. */
  lemma FindNoBar(s: string, from: nat)
    requires forall j :: from <= j < |s| ==> s[j] != '|'
    ensures Find(s, "|", from) == Npos
  {
    forall j | from <= j < |s| ensures !OccursAt(s, "|", j) {
      OccursAtChar(s, '|', j);
    }
  }

  /** Two bars found at `i` and then `j`: the three fields lie between them. */
  lemma SplitAtTwoBars(c: string, i: nat, j: nat)
    requires LabelOffset <= i < j < |c| < IntLimit
    requires Find(c, "|", LabelOffset) == i && Find(c, "|", i + 1) == j
    ensures SplitFields(c) == Some(Fields(c[LabelOffset..i], c[i + 1..j], c[j + 1..]))
  {
    TwoBarOffsets(i, j, |c|);
    assert Substr(c, LabelOffset, i - LabelOffset) == Some(c[LabelOffset..i]);
    assert Substr(c, i + 1, j - i - 1) == Some(c[i + 1..j]);
    assert Substr(c, j + 1, |c| - j - 1) == Some(c[j + 1..]);
  }

  /** The integer conversions of `SplitAtTwoBars` change nothing when every
      index fits in an `int`. */
  lemma TwoBarOffsets(i: nat, j: nat, n: nat)
    requires LabelOffset <= i < j < n < IntLimit
    ensures ToInt(i) == i && ToInt(j) == j
    ensures ToSize(ToInt(i + 1)) == i + 1
    ensures ToSize(ToInt(i - LabelOffset)) == i - LabelOffset
    ensures ToSize(ToInt(j - i - 1)) == j - i - 1
    ensures ToSize(ToInt(j + 1)) == j + 1
    ensures ToSize(n - ToSize(j) - 1) == n - j - 1
  {
  }

  /** One bar found at `i`: the command runs to the end, the style is "none". */
  lemma SplitAtOneBar(c: string, i: nat)
    requires LabelOffset <= i < |c| < IntLimit
    requires Find(c, "|", LabelOffset) == i && Find(c, "|", i + 1) == Npos
    ensures SplitFields(c) == Some(Fields(c[LabelOffset..i], c[i + 1..], DefaultStyle))
  {
  }

  /** No bar anywhere: `index_first` is -1, the label is everything from
      offset 21 on, and the command is `substr(0)`, the whole text. */
  lemma SplitAtNoBar(c: string)
    requires LabelOffset <= |c| < IntLimit
    requires Find(c, "|", LabelOffset) == Npos && Find(c, "|", 0) == Npos
    ensures SplitFields(c) == Some(Fields(c[LabelOffset..], c, DefaultStyle))
  {
  }

  /** No bar from offset 21 on, but one at index `k` before it: the second
      search starts at `index_first + 1 == 0` and finds that one. */
  lemma SplitAtEarlyBar(c: string, k: nat)
    requires k < LabelOffset <= |c| < IntLimit
    requires Find(c, "|", LabelOffset) == Npos && Find(c, "|", 0) == k && k > 0
    ensures SplitFields(c) == Some(Fields(c[LabelOffset..], c[..k], c[k + 1..]))
  {
    assert ToInt(Npos) == -1 && ToInt(k) == k;
    assert ToSize(ToInt(-1 + 1)) == 0;
    assert ToSize(ToInt(-1 - LabelOffset)) == SizeModulus - 1 - LabelOffset;
    assert ToSize(ToInt(k - -1 - 1)) == k;
    assert ToSize(ToInt(k + 1)) == k + 1;
    assert ToSize(|c| - ToSize(k) - 1) == |c| - k - 1;
    assert Substr(c, LabelOffset, SizeModulus - 1 - LabelOffset) == Some(c[LabelOffset..]);
    assert Substr(c, 0, k) == Some(c[..k]);
    assert Substr(c, k + 1, |c| - k - 1) == Some(c[k + 1..]);
  }

  /** A bar-free run `x` starting at `from` and followed by a bar: `find`
      stops right after the run. */
  lemma FindAfterRun(c: string, from: nat, x: string)
    requires from + |x| < |c| && c[from..from + |x|] == x && '|' !in x && c[from + |x|] == '|'
    ensures Find(c, "|", from) == from + |x|
  {
    forall j | from <= j < from + |x| ensures c[j] != '|' {
      assert c[j] == x[j - from];
    }
    FindBarAt(c, from, from + |x|);
  }

  /** `label|command|style`: three fields between the two first bars. */
  lemma SplitThree(sep: char, a: string, b: string, d: string)
    requires '|' !in a && '|' !in b
    requires |KwFooter + [sep] + a + "|" + b + "|" + d| < IntLimit
    ensures SplitFields(KwFooter + [sep] + a + "|" + b + "|" + d) == Some(Fields(a, b, d))
  {
    var pre := KwFooter + [sep];
    var tail := b + "|" + d;
    var c := pre + a + "|" + tail;
    assert c == KwFooter + [sep] + a + "|" + b + "|" + d;
    var i := LabelOffset + |a|;
    var j := i + 1 + |b|;
    assert c[LabelOffset..i] == a;
    assert c[i] == '|';
    assert c[i + 1..] == tail;
    assert c[i + 1..j] == b by { assert c[i + 1..j] == tail[..|b|]; }
    assert c[j] == '|' by { assert c[j] == tail[|b|]; }
    assert c[j + 1..] == d by { assert c[j + 1..] == tail[|b| + 1..]; }
    FindAfterRun(c, LabelOffset, a);
    FindAfterRun(c, i + 1, b);
    SplitAtTwoBars(c, i, j);
  }

  /** `label|command`: the command runs to the end and the style defaults to "none". */
  lemma SplitTwo(sep: char, a: string, b: string)
    requires '|' !in a && '|' !in b
    requires |KwFooter + [sep] + a + "|" + b| < IntLimit
    ensures SplitFields(KwFooter + [sep] + a + "|" + b) == Some(Fields(a, b, DefaultStyle))
  {
    var c := KwFooter + [sep] + a + "|" + b;
    var i := LabelOffset + |a|;
    assert forall k :: LabelOffset <= k < i ==> c[k] == a[k - LabelOffset];
    FindBarAt(c, LabelOffset, i);
    assert forall k :: i + 1 <= k < |c| ==> c[k] == b[k - i - 1];
    FindNoBar(c, i + 1);
    SplitAtOneBar(c, i);
    assert c[LabelOffset..i] == a;
    assert c[i + 1..] == b;
  }

  /** No bar at all: the label is the whole payload and the command is the
      entire action text, keyword included. */
  lemma SplitNoBar(sep: char, a: string)
    requires sep != '|' && '|' !in a
    requires |KwFooter + [sep] + a| < IntLimit
    ensures SplitFields(KwFooter + [sep] + a) == Some(Fields(a, KwFooter + [sep] + a, DefaultStyle))
  {
    var c := KwFooter + [sep] + a;
    assert forall k :: 0 <= k < |KwFooter| ==> c[k] == KwFooter[k];
    assert forall k :: LabelOffset <= k < |c| ==> c[k] == a[k - LabelOffset];
    FindNoBar(c, LabelOffset);
    FindNoBar(c, 0);
    SplitAtNoBar(c);
    assert c[LabelOffset..] == a;
  }

  /** No bar in the payload but a bar as separator: the command becomes the
      keyword itself and the style the whole payload. */
  lemma SplitBarSeparator(a: string)
    requires '|' !in a
    requires |KwFooter + "|" + a| < IntLimit
    ensures SplitFields(KwFooter + "|" + a) == Some(Fields(a, KwFooter, a))
  {
    var c := KwFooter + "|" + a;
    assert forall k :: 0 <= k < |KwFooter| ==> c[k] == KwFooter[k];
    assert forall k :: LabelOffset <= k < |c| ==> c[k] == a[k - LabelOffset];
    FindNoBar(c, LabelOffset);
    FindBarAt(c, 0, |KwFooter|);
    SplitAtEarlyBar(c, |KwFooter|);
    assert c[LabelOffset..] == a;
    assert c[..|KwFooter|] == KwFooter;
  }

  /** The bare keyword: `substr(21, ...)` throws. */
  lemma SplitKeywordOnly()
    ensures SplitFields(KwFooter) == None
  {
  }
}
