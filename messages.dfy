/** The message table of the form validator and the ordered list of messages
    it produces for one control's native validity state. */
module Messages {
  import opened Decimal

  /** The constraint kinds the table knows, in the table's own order. */
  datatype ConstraintKind = ValueMissing | PatternMismatch | TooShort | TooLong

  const Table: seq<ConstraintKind> := [ValueMissing, PatternMismatch, TooShort, TooLong]

  /** The host's native validity state of a control: every flag the platform
      reports (the derived `valid` flag is left out). Only four of them are
      looked up by the table. */
  datatype Validity = Validity(
    valueMissing: bool,
    typeMismatch: bool,
    patternMismatch: bool,
    tooLong: bool,
    tooShort: bool,
    rangeUnderflow: bool,
    rangeOverflow: bool,
    stepMismatch: bool,
    badInput: bool,
    customError: bool)

  /** A length limit as the platform reports it: a 32-bit signed `long` that is
      -1 when the attribute is absent and otherwise non-negative. */
  type LengthLimit = i: int | -1 <= i < 0x8000_0000

  /** The control attributes the messages read. */
  datatype Attributes = Attributes(title: string, minLength: LengthLimit, maxLength: LengthLimit)

  const ValueMissingText := "Заполните это поле"
  const PatternFallbackText := "Неверный формат"
  const TooShortPrefix := "Слишком короткое значение, минимум символов — "
  const TooLongPrefix := "Слишком длинное значение, максимум символов — "

  /** The validity flag that the table entry for k looks up. */
  function Violated(v: Validity, k: ConstraintKind): bool
  {
    match k
    case ValueMissing => v.valueMissing
    case PatternMismatch => v.patternMismatch
    case TooShort => v.tooShort
    case TooLong => v.tooLong
  }

  /** The table entry for k applied to the control; never empty. */
  function Message(k: ConstraintKind, a: Attributes): (m: string)
    ensures |m| > 0
  {
    match k
    case ValueMissing => ValueMissingText
    case PatternMismatch => if a.title != "" then a.title else PatternFallbackText
    case TooShort => TooShortPrefix + IntToString(a.minLength)
    case TooLong => TooLongPrefix + IntToString(a.maxLength)
  }

  /** The messages of the violated kinds among ks, in the order of ks. */
  function Collect(v: Validity, a: Attributes, ks: seq<ConstraintKind>): seq<string>
  {
    if ks == [] then []
    else
      var k := ks[|ks| - 1];
      Collect(v, a, ks[..|ks| - 1]) + (if Violated(v, k) then [Message(k, a)] else [])
  }

  /** The messages a control in validity state v shows. */
  function CollectMessages(v: Validity, a: Attributes): seq<string>
  {
    Collect(v, a, Table)
  }

  /** [m] when the flag is set, [] otherwise. */
  function When(flag: bool, m: string): seq<string>
  {
    if flag then [m] else []
  }

  /** One message per violated table kind, in table order, and nothing for any
      other validity flag. */
  lemma CollectMessagesInTableOrder(v: Validity, a: Attributes)
    ensures CollectMessages(v, a) ==
      When(v.valueMissing, ValueMissingText) +
      When(v.patternMismatch, Message(PatternMismatch, a)) +
      When(v.tooShort, TooShortPrefix + IntToString(a.minLength)) +
      When(v.tooLong, TooLongPrefix + IntToString(a.maxLength))
  {
    var k1, k2, k3 := [ValueMissing], [ValueMissing, PatternMismatch], Table[..3];
    assert k1[..0] == [] && k2[..1] == k1 && k3[..2] == k2 && Table[..3] == k3;
    assert Collect(v, a, k1) == When(v.valueMissing, ValueMissingText);
    assert Collect(v, a, k2) == Collect(v, a, k1) + When(v.patternMismatch, Message(PatternMismatch, a));
    assert Collect(v, a, k3) == Collect(v, a, k2) + When(v.tooShort, Message(TooShort, a));
    assert Collect(v, a, Table) == Collect(v, a, k3) + When(v.tooLong, Message(TooLong, a));
  }

  /** The total number of violated table kinds. */
  function ViolationCount(v: Validity): nat
  {
    (if v.valueMissing then 1 else 0) + (if v.patternMismatch then 1 else 0) +
    (if v.tooShort then 1 else 0) + (if v.tooLong then 1 else 0)
  }

  lemma CollectMessagesCount(v: Validity, a: Attributes)
    ensures |CollectMessages(v, a)| == ViolationCount(v)
  {
    CollectMessagesInTableOrder(v, a);
  }

  /** No message exactly when none of the four table kinds is violated. */
  lemma CollectMessagesEmptyIff(v: Validity, a: Attributes)
    ensures CollectMessages(v, a) == [] <==>
      !v.valueMissing && !v.patternMismatch && !v.tooShort && !v.tooLong
  {
    CollectMessagesCount(v, a);
  }

  /** Flags outside the table (type, range, step, bad input, custom error) never
      change the messages. */
  lemma CollectMessagesIgnoresOtherFlags(v: Validity, w: Validity, a: Attributes)
    requires v.valueMissing == w.valueMissing && v.patternMismatch == w.patternMismatch
    requires v.tooShort == w.tooShort && v.tooLong == w.tooLong
    ensures CollectMessages(v, a) == CollectMessages(w, a)
  {
    CollectMessagesInTableOrder(v, a);
    CollectMessagesInTableOrder(w, a);
  }

  /** The pattern message is the control's title, or the fallback when the
      title is empty; the missing-value message is constant. */
  lemma PatternAndMissingMessages(a: Attributes)
    ensures a.title != "" ==> Message(PatternMismatch, a) == a.title
    ensures a.title == "" ==> Message(PatternMismatch, a) == PatternFallbackText
    ensures forall b: Attributes :: Message(ValueMissing, b) == Message(ValueMissing, a)
  {
  }

  /** The length messages are their fixed prefix followed by a numeral that
      reads back as the control's limit. */
  lemma LengthMessagesDenoteLimits(a: Attributes)
    ensures var m := Message(TooShort, a);
      |m| > |TooShortPrefix| && m[..|TooShortPrefix|] == TooShortPrefix &&
      ParseInt(m[|TooShortPrefix|..]) == Some(a.minLength)
    ensures var m := Message(TooLong, a);
      |m| > |TooLongPrefix| && m[..|TooLongPrefix|] == TooLongPrefix &&
      ParseInt(m[|TooLongPrefix|..]) == Some(a.maxLength)
  {
    var s := Message(TooShort, a);
    assert s[|TooShortPrefix|..] == IntToString(a.minLength);
    IntToStringRoundTrip(a.minLength);
    var l := Message(TooLong, a);
    assert l[|TooLongPrefix|..] == IntToString(a.maxLength);
    IntToStringRoundTrip(a.maxLength);
  }

  /** Different limits give different length messages. */
  lemma LengthMessagesDistinguishLimits(a: Attributes, b: Attributes)
    ensures Message(TooShort, a) == Message(TooShort, b) ==> a.minLength == b.minLength
    ensures Message(TooLong, a) == Message(TooLong, b) ==> a.maxLength == b.maxLength
  {
    LengthMessagesDenoteLimits(a);
    LengthMessagesDenoteLimits(b);
  }

  /** The forEach/push walk over the table in validateField. */
  method CollectErrorMessages(v: Validity, a: Attributes) returns (messages: seq<string>)
    ensures messages == CollectMessages(v, a)
    ensures messages == [] <==> ViolationCount(v) == 0
  {
    messages := [];
    for i := 0 to |Table|
      invariant messages == Collect(v, a, Table[..i])
    {
      assert Table[..i + 1][..i] == Table[..i];
      if Violated(v, Table[i]) {
        messages := messages + [Message(Table[i], a)];
      }
    }
    assert Table[..|Table|] == Table;
    CollectMessagesCount(v, a);
  }
}
