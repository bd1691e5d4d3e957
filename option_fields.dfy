/** The four option slots of the upload and edit forms, shared by the admin
    and uploader handlers: the `option{n}` field names, the stored texts a
    slot falls back to, and the `Option {n}` placeholder. */
module OptionFields {
  import opened Values
  import opened QuestionModel

  /** The number of option slots every form builds */
  const Slots: nat := 4

  /** The form field `option${n}` */
  function OptionName(n: nat): string {
    "option" + NatToString(n)
  }

  /** The placeholder `Option ${i + 1}` for slot `i` */
  function Label(i: nat): (t: string)
    ensures t != ""
  {
    "Option " + NatToString(i + 1)
  }

  /** For one-digit numbers the field name ends in that digit, so distinct
      slots read distinct fields. */
  lemma OptionNamesDistinct(m: nat, n: nat)
    requires m < 10 && n < 10
    ensures OptionName(n) == "option" + [DigitChar(n)]
    ensures OptionName(m) == OptionName(n) <==> m == n
  {
    assert OptionName(m)[|OptionName(m)| - 1] == DigitChar(m);
    assert OptionName(n)[|OptionName(n)| - 1] == DigitChar(n);
  }

  /** `(q.options || []).map(o => o.text || '')` */
  function StoredTexts(q: Question): (texts: seq<string>)
    ensures |texts| == |q.options|
    ensures forall i :: 0 <= i < |texts| ==> texts[i] == q.options[i].text
  {
    seq(|q.options|, i requires 0 <= i < |q.options| => q.options[i].text)
  }

  /** `existingOpts[i] || 'Option ' + (i + 1)`: the stored text of the slot,
      or the placeholder when there is none. */
  function Fallback(existing: seq<string>, i: nat): (t: string)
    ensures t != ""
    ensures i < |existing| && existing[i] != "" ==> t == existing[i]
    ensures !(i < |existing| && existing[i] != "") ==> t == Label(i)
  {
    if i < |existing| && existing[i] != "" then existing[i] else Label(i)
  }

  /** One slot of an edit: the submitted text, trimmed, when that is not
      empty; otherwise the fallback. `raw` is the submitted field, None when
      absent. */
  function Slot(raw: Option<string>, existing: seq<string>, i: nat): (t: string)
    ensures t != ""
    ensures raw.Some? && Trim(raw.value) != "" ==> t == Trim(raw.value)
    ensures !(raw.Some? && Trim(raw.value) != "") ==> t == Fallback(existing, i)
  {
    if raw.Some? && Trim(raw.value) != "" then Trim(raw.value) else Fallback(existing, i)
  }

  /** A submitted text with a visible character always wins over the stored
      one, and a blank one never does. */
  lemma SlotKeepsStoredOnBlank(raw: Option<string>, existing: seq<string>, i: nat)
    ensures Slot(raw, existing, i) == Fallback(existing, i) <==>
              raw.None? || (forall k :: 0 <= k < |raw.value| ==> IsSpace(raw.value[k])) || Trim(raw.value) == Fallback(existing, i)
  {
    if raw.Some? {
      TrimBlank(raw.value);
    }
  }
}
