/** The form of the internal-memorandum page. Some fields are stored with a
    caption in front ("วันที่ ", "เรื่อง: ", ...): an edit stores the caption
    followed by the typed value, and the form and the preview show the stored
    text with a leading caption removed. */
module InternalDocsPage {
  import opened Strings

  /** The three parts of the memorandum body. */
  datatype MemoContent = MemoContent(reason: string, request: string, conclusion: string)

  /** `DocumentData`: every field of the memorandum as the page keeps it. */
  datatype Memo = Memo(
    referenceNumber: string,
    date: string,
    department: string,
    subject: string,
    recipient: string,
    content: MemoContent,
    signature: string,
    position: string)

  /** The fields the form lets one edit, one input each. */
  datatype Slot =
    | Department | ReferenceNumber | Date | Subject | Recipient
    | Reason | Request | Conclusion | Signature | Position

  /** The caption stored in front of a field's value; fields without one have
      the empty caption. */
  function Prefix(slot: Slot): string
  {
    match slot
    case Date => "วันที่ "
    case Subject => "เรื่อง: "
    case Recipient => "เรียน "
    case Reason => "ภาคเหตุ: "
    case Request => "ภาคความประสงค์: "
    case Conclusion => "ภาคสรุป: "
    case _ => ""
  }

  /** The text a memorandum keeps for a field. */
  function Stored(m: Memo, slot: Slot): string
  {
    match slot
    case Department => m.department
    case ReferenceNumber => m.referenceNumber
    case Date => m.date
    case Subject => m.subject
    case Recipient => m.recipient
    case Reason => m.content.reason
    case Request => m.content.request
    case Conclusion => m.content.conclusion
    case Signature => m.signature
    case Position => m.position
  }

  /** `s.replace(/^prefix/, '')`: the prefix is removed when `s` starts with
      it, and `s` is kept as it is otherwise. */
  function StripPrefix(s: string, prefix: string): (r: string)
    ensures StartsWith(s, prefix) ==> prefix + r == s
    ensures !StartsWith(s, prefix) ==> r == s
  {
    if StartsWith(s, prefix) then s[|prefix|..] else s
  }

  /** What the form and the preview show for a field. */
  function Shown(m: Memo, slot: Slot): string
  {
    StripPrefix(Stored(m, slot), Prefix(slot))
  }

  /** An `onChange` handler: the edited field stores its caption followed by
      the typed value, which is then shown back exactly as typed; every other
      field, the other parts of the body included, keeps its text. */
  function Edit(m: Memo, slot: Slot, v: string): (r: Memo)
    ensures Stored(r, slot) == Prefix(slot) + v
    ensures Shown(r, slot) == v
    ensures forall t :: t != slot ==> Stored(r, t) == Stored(m, t)
  {
    var s := Prefix(slot) + v;
    assert StartsWith(s, Prefix(slot)) && s[|Prefix(slot)|..] == v;
    match slot
    case Department => m.(department := s)
    case ReferenceNumber => m.(referenceNumber := s)
    case Date => m.(date := s)
    case Subject => m.(subject := s)
    case Recipient => m.(recipient := s)
    case Reason => m.(content := m.content.(reason := s))
    case Request => m.(content := m.content.(request := s))
    case Conclusion => m.(content := m.content.(conclusion := s))
    case Signature => m.(signature := s)
    case Position => m.(position := s)
  }

  /** The fields tell memoranda apart: two that keep the same text in every
      field are the same. */
  lemma StoredDetermines(a: Memo, b: Memo)
    requires forall t :: Stored(a, t) == Stored(b, t)
    ensures a == b
  {
    assert Stored(a, Department) == Stored(b, Department);
    assert Stored(a, ReferenceNumber) == Stored(b, ReferenceNumber);
    assert Stored(a, Date) == Stored(b, Date);
    assert Stored(a, Subject) == Stored(b, Subject);
    assert Stored(a, Recipient) == Stored(b, Recipient);
    assert Stored(a, Reason) == Stored(b, Reason);
    assert Stored(a, Request) == Stored(b, Request);
    assert Stored(a, Conclusion) == Stored(b, Conclusion);
    assert Stored(a, Signature) == Stored(b, Signature);
    assert Stored(a, Position) == Stored(b, Position);
  }

  /** Typing back what a field shows leaves the memorandum as it was, when the
      field already carries its caption. */
  lemma EditShown(m: Memo, slot: Slot)
    requires StartsWith(Stored(m, slot), Prefix(slot))
    ensures Edit(m, slot, Shown(m, slot)) == m
  {
    var r := Edit(m, slot, Shown(m, slot));
    forall t
      ensures Stored(r, t) == Stored(m, t)
    {
    }
    StoredDetermines(r, m);
  }

  /** The last edit of a field is the one that counts. */
  lemma EditTwice(m: Memo, slot: Slot, v: string, w: string)
    ensures Edit(Edit(m, slot, v), slot, w) == Edit(m, slot, w)
  {
    var a, b := Edit(Edit(m, slot, v), slot, w), Edit(m, slot, w);
    forall t
      ensures Stored(a, t) == Stored(b, t)
    {
    }
    StoredDetermines(a, b);
  }

  /** Edits of two different fields, even two parts of the body, do not
      interfere. */
  lemma EditsCommute(m: Memo, s1: Slot, v1: string, s2: Slot, v2: string)
    requires s1 != s2
    ensures Edit(Edit(m, s1, v1), s2, v2) == Edit(Edit(m, s2, v2), s1, v1)
  {
    var a, b := Edit(Edit(m, s1, v1), s2, v2), Edit(Edit(m, s2, v2), s1, v1);
    forall t
      ensures Stored(a, t) == Stored(b, t)
    {
    }
    StoredDetermines(a, b);
  }

  /** A field without a caption is shown exactly as kept. */
  lemma ShownPlain(m: Memo, slot: Slot)
    requires Prefix(slot) == ""
    ensures Shown(m, slot) == Stored(m, slot)
  {
    assert Stored(m, slot)[0..] == Stored(m, slot);
  }

  /** `s.split('').join('')`, as the PDF export writes every field: the text
      comes out unchanged. */
  function Exported(s: string): (r: string)
    ensures r == s
  {
    ConcatChars(s);
    Concat(Chars(s))
  }
}
