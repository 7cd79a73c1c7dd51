/**
 Domain names in the three forms in which the DNS library handles them: a list of labels,
 the text of a master file (RFC 1035 section 5.1), and the wire form (RFC 1035 section 3.1).
 */
module DomainNames {
  import opened Bytes

  type Text = seq<byte>
  type Label = seq<byte>

  const DOT: byte := 46
  const BACKSLASH: byte := 92
  const TAB: byte := 9
  const NEWLINE: byte := 10
  const RETURN: byte := 13
  const MAX_LABEL := 64

  predicate LabelOk(l: Label) {
    1 <= |l| < MAX_LABEL
  }

  predicate LabelsOk(labels: seq<Label>) {
    forall i :: 0 <= i < |labels| ==> LabelOk(labels[i])
  }

  predicate IsDigit(b: byte) {
    48 <= b <= 57
  }

  // ---------------------------------------------------------------- text

  /** The bytes that get a backslash: . ( ) ; space @ " \ */
  predicate IsSpecial(b: byte) {
    b == DOT || b == 40 || b == 41 || b == 59 || b == 32 || b == 64 || b == 34 || b == BACKSLASH
  }

  function Escape(b: byte): (r: Text)
    ensures 1 <= |r| <= 4
  {
    if IsSpecial(b) then [BACKSLASH, b]
    else if b == TAB then [BACKSLASH, 116]
    else if b == RETURN then [BACKSLASH, 114]
    else if b < 32 || b >= 127 then [BACKSLASH, 48 + b / 100, 48 + b / 10 % 10, 48 + b % 10]
    else [b]
  }

  function PrintLabel(l: Label): (r: Text)
    ensures |l| <= |r| <= 4 * |l|
  {
    if l == [] then [] else Escape(l[0]) + PrintLabel(l[1..])
  }

  function Print(labels: seq<Label>): Text {
    if labels == [] then [] else PrintLabel(labels[0]) + [DOT] + Print(labels[1..])
  }

  /** The root is written as a single dot. */
  function NameText(labels: seq<Label>): Text {
    if labels == [] then [DOT] else Print(labels)
  }

  // ---------------------------------------------------------------- wire form

  function WireLabel(l: Label): (r: seq<byte>)
    requires |l| < 256
    ensures |r| == |l| + 1
  {
    [|l|] + l
  }

  function WireLabels(labels: seq<Label>): (r: seq<byte>)
    requires LabelsOk(labels)
  {
    if labels == [] then [] else WireLabel(labels[0]) + WireLabels(labels[1..])
  }

  function WireName(labels: seq<Label>): (r: seq<byte>)
    requires LabelsOk(labels)
    ensures r != []
  {
    WireLabels(labels) + [0]
  }

  // ---------------------------------------------------------------- reading text

  /** A byte of a name, and whether a backslash made it lose its special meaning. */
  datatype Token = Token(b: byte, escaped: bool)

  /** Three digits as a byte: the sum wraps around. */
  function Ddd(a: byte, b: byte, c: byte): byte {
    ((a - 48) * 100 + (b - 48) * 10 + (c - 48)) % 256
  }

  /** What a letter stands for after a backslash. */
  function Control(b: byte): byte {
    if b == 116 then TAB else if b == 114 then RETURN else if b == 110 then NEWLINE else b
  }

  predicate StartsDdd(s: Text) {
    |s| > 3 && s[0] == BACKSLASH && IsDigit(s[1]) && IsDigit(s[2]) && IsDigit(s[3])
  }

  /** The first token of a text. */
  function First(s: Text): Token
    requires s != []
  {
    if s[0] != BACKSLASH || |s| == 1 then Token(s[0], false)
    else if StartsDdd(s) then Token(Ddd(s[1], s[2], s[3]), true)
    else Token(Control(s[1]), true)
  }

  /** How many bytes of text the first token takes. */
  function FirstSize(s: Text): (n: nat)
    requires s != []
    ensures 1 <= n <= |s|
  {
    if s[0] != BACKSLASH || |s| == 1 then 1 else if StartsDdd(s) then 4 else 2
  }

  function Tokens(s: Text): (r: seq<Token>)
    ensures |r| <= |s|
    decreases |s|
  {
    if s == [] then [] else [First(s)] + Tokens(s[FirstSize(s)..])
  }

  function IsEnd(t: Token): bool {
    t == Token(DOT, false)
  }

  /** A printed byte is read back as one token that is not the end of a label. */
  lemma EscapeIsRead(b: byte, rest: Text)
    ensures Tokens(Escape(b) + rest) == [Token(b, |Escape(b)| > 1)] + Tokens(rest)
  {
    var s := Escape(b) + rest;
    assert s[|Escape(b)|..] == rest;
    if !IsSpecial(b) && (b < 32 || b >= 127) && b != TAB && b != RETURN {
      DddOfDigits(b);
    }
    assert FirstSize(s) == |Escape(b)| && First(s) == Token(b, |Escape(b)| > 1);
  }

  lemma DddOfDigits(b: byte)
    ensures Ddd(48 + b / 100, 48 + b / 10 % 10, 48 + b % 10) == b
    ensures IsDigit(48 + b / 100) && IsDigit(48 + b / 10 % 10) && IsDigit(48 + b % 10)
  {
    assert b / 10 == 10 * (b / 100) + b / 10 % 10;
  }

  function LabelTokens(l: Label): (r: seq<Token>)
    ensures |r| == |l|
  {
    seq(|l|, i requires 0 <= i < |l| => Token(l[i], |Escape(l[i])| > 1))
  }

  lemma {:induction false} LabelIsRead(l: Label, rest: Text)
    ensures Tokens(PrintLabel(l) + rest) == LabelTokens(l) + Tokens(rest)
  {
    hide Tokens, Escape;
    if l == [] {
      assert PrintLabel(l) + rest == rest;
    } else {
      var more := PrintLabel(l[1..]) + rest;
      assert PrintLabel(l) + rest == Escape(l[0]) + more;
      EscapeIsRead(l[0], more);
      LabelIsRead(l[1..], rest);
      assert LabelTokens(l) == [Token(l[0], |Escape(l[0])| > 1)] + LabelTokens(l[1..]);
    }
  }

  function NameTokens(labels: seq<Label>): seq<Token> {
    if labels == [] then [] else LabelTokens(labels[0]) + [Token(DOT, false)] + NameTokens(labels[1..])
  }

  lemma {:induction false} NameIsRead(labels: seq<Label>)
    ensures Tokens(Print(labels)) == NameTokens(labels)
  {
    if labels != [] {
      var rest := Print(labels[1..]);
      assert Print(labels) == PrintLabel(labels[0]) + ([DOT] + rest);
      LabelIsRead(labels[0], [DOT] + rest);
      assert ([DOT] + rest)[1..] == rest;
      NameIsRead(labels[1..]);
    }
  }
}
