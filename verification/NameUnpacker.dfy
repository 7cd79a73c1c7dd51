/**
 Unpacking a domain name (miekg/dns, msg.go): labels are printed one after another, and
 pointers are followed, but not too many of them.
 */
module NameUnpacker {
  import opened Bytes
  import opened DomainNames

  datatype UnpackError = ErrBuf | ErrRdata | ErrTooManyPointers

  const MAX_POINTERS := 10

  /** The labels of a name, the place after its own bytes, and the place after the root label that ended it. */
  datatype Walked = Name(labels: seq<Label>, next: nat, end: nat) | Bad(error: UnpackError)

  function Target(msg: seq<byte>, off: nat): nat
    requires off + 1 < |msg| && msg[off] >= 192
  {
    var high: nat := msg[off] - 192;
    256 * high + msg[off + 1]
  }

  /** The name at off, when at most budget more pointers may be followed. */
  function Walk(msg: seq<byte>, off: nat, budget: nat): (w: Walked)
    ensures w.Name? ==> LabelsOk(w.labels) && off < |msg|
    ensures w.Name? ==> off < w.next <= |msg| && 0 < w.end <= |msg|
    decreases budget, |msg| - off
  {
    if off >= |msg| then Bad(ErrBuf)
    else
      var c := msg[off];
      if c == 0 then Name([], off + 1, off + 1)
      else if c < 64 then
        if off + 1 + c > |msg| then Bad(ErrBuf)
        else match Walk(msg, off + 1 + c, budget)
          case Name(labels, next, end) => Name([msg[off + 1..off + 1 + c]] + labels, next, end)
          case Bad(e) => Bad(e)
      else if c >= 192 then
        if off + 1 >= |msg| then Bad(ErrBuf)
        else if budget == 0 then Bad(ErrTooManyPointers)
        else match Walk(msg, Target(msg, off), budget - 1)
          case Name(labels, _, end) => Name(labels, off + 2, end)
          case Bad(e) => Bad(e)
      else Bad(ErrRdata)
  }

  /** What UnpackDomainName returns. */
  datatype Unpacked = Unpacked(text: Text, off: nat) | Refused(error: UnpackError)

  /**
   The text of the name at off and the place after it. For the root the place is the one
   after the root label itself, even if a pointer led there.
   */
  function Unpack(msg: seq<byte>, off: nat): Unpacked {
    match Walk(msg, off, MAX_POINTERS)
    case Name(labels, next, end) => Unpacked(NameText(labels), if labels == [] then end else next)
    case Bad(e) => Refused(e)
  }

  /** One byte of a label, printed. */
  method AppendByte(s: Text, b: byte) returns (r: Text)
    ensures r == s + Escape(b)
  {
    if b == DOT || b == 40 || b == 41 || b == 59 || b == 32 || b == 64 || b == 34 || b == BACKSLASH {
      r := s + [BACKSLASH, b];
    } else if b == TAB {
      r := s + [BACKSLASH, 116];
    } else if b == RETURN {
      r := s + [BACKSLASH, 114];
    } else if b < 32 || b >= 127 {
      r := s + [BACKSLASH, 48 + b / 100, 48 + b / 10 % 10, 48 + b % 10];
    } else {
      r := s + [b];
    }
  }

  /** The label of c bytes at off, printed behind s. */
  method AppendLabel(s: Text, msg: array<byte>, off: nat, c: nat) returns (r: Text)
    requires off + c <= msg.Length
    ensures r == s + PrintLabel(msg[off..off + c])
  {
    r := s;
    ghost var all := s + PrintLabel(msg[off..off + c]);
    var j := off;
    while j < off + c
      invariant off <= j <= off + c
      invariant all == r + PrintLabel(msg[j..off + c])
    {
      assert msg[j..off + c] == [msg[j]] + msg[j + 1..off + c];
      PrintLabelStep(r, msg[j], msg[j + 1..off + c]);
      r := AppendByte(r, msg[j]);
      j := j + 1;
    }
  }

  lemma PrintLabelStep(r: Text, b: byte, l: Label)
    ensures r + PrintLabel([b] + l) == r + Escape(b) + PrintLabel(l)
  {
    hide Escape;
    assert ([b] + l)[1..] == l;
  }

  lemma {:induction false} PrintSnoc(labels: seq<Label>, l: Label)
    ensures Print(labels + [l]) == Print(labels) + PrintLabel(l) + [DOT]
  {
    if labels == [] {
      assert [l][1..] == [];
    } else {
      assert (labels + [l])[1..] == labels[1..] + [l];
      PrintSnoc(labels[1..], l);
    }
  }

  /** What the walk comes to when labels have been seen, and a first pointer has fixed the next place. */
  function Seen(labels: seq<Label>, jumped: Option<nat>, w: Walked): Walked {
    match w
    case Name(more, next, end) => Name(labels + more, if jumped.Some? then jumped.value else next, end)
    case Bad(e) => Bad(e)
  }

  lemma WalkLabel(msg: seq<byte>, off: nat, budget: nat, labels: seq<Label>, jumped: Option<nat>)
    requires off < |msg| && 0 < msg[off] < 64 && off + 1 + msg[off] <= |msg|
    ensures Seen(labels, jumped, Walk(msg, off, budget)) ==
            Seen(labels + [msg[off + 1..off + 1 + msg[off]]], jumped, Walk(msg, off + 1 + msg[off], budget))
  {
    var l, w := msg[off + 1..off + 1 + msg[off]], Walk(msg, off + 1 + msg[off], budget);
    if w.Name? {
      assert labels + ([l] + w.labels) == labels + [l] + w.labels;
    }
  }

  lemma WalkPointer(msg: seq<byte>, off: nat, budget: nat, labels: seq<Label>, jumped: Option<nat>)
    requires off + 1 < |msg| && msg[off] >= 192 && budget > 0
    ensures Seen(labels, jumped, Walk(msg, off, budget)) ==
            Seen(labels, Some(if jumped.Some? then jumped.value else off + 2), Walk(msg, Target(msg, off), budget - 1))
  {
  }

  lemma WalkStops(msg: seq<byte>, off: nat, budget: nat, labels: seq<Label>, jumped: Option<nat>)
    ensures off >= |msg| ==> Walk(msg, off, budget) == Bad(ErrBuf)
    ensures off < |msg| && msg[off] == 0 ==>
              Seen(labels, jumped, Walk(msg, off, budget)) == Name(labels, if jumped.Some? then jumped.value else off + 1, off + 1)
    ensures off < |msg| && 0 < msg[off] < 64 && off + 1 + msg[off] > |msg| ==> Walk(msg, off, budget) == Bad(ErrBuf)
    ensures off < |msg| && 64 <= msg[off] < 192 ==> Walk(msg, off, budget) == Bad(ErrRdata)
    ensures off + 1 == |msg| && msg[off] >= 192 ==> Walk(msg, off, budget) == Bad(ErrBuf)
    ensures off + 1 < |msg| && msg[off] >= 192 && budget == 0 ==> Walk(msg, off, budget) == Bad(ErrTooManyPointers)
  {
    assert labels + [] == labels;
  }

  method UnpackDomainName(msg: array<byte>, off0: nat) returns (text: Text, off1: nat, err: Option<UnpackError>)
    ensures match Unpack(msg[..], off0)
            case Unpacked(t, o) => text == t && off1 == o && err.None?
            case Refused(e) => text == [] && off1 == msg.Length && err == Some(e)
  {
    hide Walk, Print, PrintLabel;
    var off: nat, ptr: nat := off0, 0;
    var jumped: Option<nat> := None;
    ghost var m, labels: seq<Label> := msg[..], [];
    text, err := [], None;
    assert Print([]) == [] by { PrintNothing(); }
    while true
      invariant ptr <= MAX_POINTERS && (ptr == 0 <==> jumped.None?)
      invariant m == msg[..] && text == Print(labels) && (text == [] <==> labels == [])
      invariant Walk(m, off0, MAX_POINTERS) == Seen(labels, jumped, Walk(m, off, MAX_POINTERS - ptr))
      decreases MAX_POINTERS - ptr, msg.Length - off
    {
      WalkStops(m, off, MAX_POINTERS - ptr, labels, jumped);
      if off >= msg.Length {
        return [], msg.Length, Some(ErrBuf);
      }
      var c: int := msg[off];
      off := off + 1;
      if c < 64 {
        if c == 0 {
          if |text| == 0 {
            return [DOT], off, None;
          }
          break;
        }
        if off + c > msg.Length {
          return [], msg.Length, Some(ErrBuf);
        }
        WalkLabel(m, off - 1, MAX_POINTERS - ptr, labels, jumped);
        PrintSnoc(labels, m[off..off + c]);
        assert m[off..off + c] == msg[off..off + c];
        labels := labels + [m[off..off + c]];
        text := AppendLabel(text, msg, off, c);
        text := text + [DOT];
        off := off + c;
      } else if c >= 192 {
        if off >= msg.Length {
          return [], msg.Length, Some(ErrBuf);
        }
        WalkPointer(m, off - 1, if ptr < MAX_POINTERS then MAX_POINTERS - ptr else 1, labels, jumped);
        var c1: int := msg[off];
        off := off + 1;
        if ptr == 0 {
          jumped := Some(off);
        }
        ptr := ptr + 1;
        if ptr > MAX_POINTERS {
          return [], msg.Length, Some(ErrTooManyPointers);
        }
        off := (c - 192) * 256 + c1;
      } else {
        return [], msg.Length, Some(ErrRdata);
      }
    }
    off1 := if ptr == 0 then off else jumped.value;
  }

  lemma PrintNothing()
    ensures Print([]) == []
  {
  }
}