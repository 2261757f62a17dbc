/**
 * Retrieval of stored evidence: checking the requested ids, and shrinking the
 * result into the caller's character budget.
 */
module Evidence {
  import opened Basics

  const MAX_EVIDENCE_ID_CHARS: nat := 128

  const PROTECTED_FIELDS: set<string> :=
    {"evidence_id", "source_type", "group", "query", "searched_at", "freshness", "title", "url", "public_url"}

  const PAGE_BODY_FIELDS: set<string> := {"page_text", "image_candidates"}

  /** A JSON value as far as shrinking looks at it. */
  datatype Value = Text(text: string) | NotText

  datatype Field = Field(key: string, value: Value)

  /** A record: its own fields and those of its source and item, in insertion order. */
  datatype Record = Record(id: string, web: bool, parts: seq<seq<Field>>, omitted: seq<string>)

  datatype Status = Ok | Partial | NotFound | Truncated

  datatype Payload = Payload(status: Status, evidence: seq<Record>, missing: seq<string>, truncated: seq<string>)

  datatype Result<T> = Success(value: T) | Failure(reason: string)

  // Requested ids

  /** The first occurrences, in order. */
  function FirstOccurrences(s: seq<string>): seq<string> {
    if |s| == 0 then []
    else
      var rest, last := FirstOccurrences(s[..|s| - 1]), s[|s| - 1];
      if last in rest then rest else rest + [last]
  }

  predicate Distinct(s: seq<string>) {
    forall i, j :: 0 <= i < j < |s| ==> s[i] != s[j]
  }

  /** Deduplication loses no id, repeats none, and orders them by where they first appear. */
  lemma {:induction false} FirstOccurrencesMeaning(s: seq<string>)
    ensures Distinct(FirstOccurrences(s))
    ensures forall x :: x in FirstOccurrences(s) <==> x in s
    ensures forall i, j :: 0 <= i < j < |FirstOccurrences(s)| ==> AppearsBefore(s, FirstOccurrences(s)[i], FirstOccurrences(s)[j])
  {
    if |s| > 0 {
      var before, last := s[..|s| - 1], s[|s| - 1];
      FirstOccurrencesMeaning(before);
      assert s == before + [last];
      var firsts := FirstOccurrences(s);
      forall i, j | 0 <= i < j < |firsts| ensures AppearsBefore(s, firsts[i], firsts[j]) {
        if j < |FirstOccurrences(before)| {
          AppearsBeforeLater(before, last, firsts[i], firsts[j]);
        } else {
          assert firsts[i] in FirstOccurrences(before);
          var p :| 0 <= p < |before| && before[p] == firsts[i];
          assert s[p] == firsts[i] && firsts[j] !in s[..p + 1] by { assert s[..p + 1] == before[..p + 1]; }
        }
      }
    }
  }

  /** x occurs in s before y ever does. */
  ghost predicate AppearsBefore(s: seq<string>, x: string, y: string) {
    exists p :: 0 <= p < |s| && s[p] == x && y !in s[..p + 1]
  }

  lemma AppearsBeforeLater(s: seq<string>, more: string, x: string, y: string)
    requires AppearsBefore(s, x, y)
    ensures AppearsBefore(s + [more], x, y)
  {
    var p :| 0 <= p < |s| && s[p] == x && y !in s[..p + 1];
    assert (s + [more])[p] == x && (s + [more])[..p + 1] == s[..p + 1];
  }

  predicate ValidId(value: Value, strip: string -> string) {
    value.Text? && 0 < |strip(value.text)| <= MAX_EVIDENCE_ID_CHARS
  }

  function StrippedIds(values: seq<Value>, strip: string -> string): seq<string>
    requires forall i :: 0 <= i < |values| ==> ValidId(values[i], strip)
  {
    seq(|values|, i requires 0 <= i < |values| && ValidId(values[i], strip) => strip(values[i].text))
  }

  /** Ids are accepted if and only if there are some, each is valid, and not too many differ. */
  method ValidateEvidenceIds(values: seq<Value>, maxIds: int, strip: string -> string) returns (r: Result<seq<string>>)
    ensures r.Success? <==>
              && values != [] && (forall i :: 0 <= i < |values| ==> ValidId(values[i], strip))
              && |FirstOccurrences(StrippedIds(values, strip))| <= maxIds
    ensures r.Success? ==> r.value == FirstOccurrences(StrippedIds(values, strip)) && r.value != []
  {
    if values == [] {
      return Failure("At least one evidence_id is required.");
    }
    var normalized: seq<string> := [];
    ghost var stripped: seq<string> := [];
    for i := 0 to |values|
      invariant forall j :: 0 <= j < i ==> ValidId(values[j], strip)
      invariant stripped == StrippedIds(values[..i], strip)
      invariant normalized == FirstOccurrences(stripped)
      invariant i > 0 ==> normalized != []
    {
      if values[i].NotText? {
        return Failure("Every evidence_id must be a string.");
      }
      var id := strip(values[i].text);
      if id == "" {
        return Failure("Evidence IDs must not be empty.");
      }
      if |id| > MAX_EVIDENCE_ID_CHARS {
        return Failure("Evidence ID too long.");
      }
      assert (stripped + [id])[..i] == stripped;
      stripped := stripped + [id];
      if id !in normalized {
        normalized := normalized + [id];
      }
    }
    assert values[..|values|] == values;
    if |normalized| > maxIds {
      return Failure("Too many evidence IDs.");
    }
    return Success(normalized);
  }

  // Trimming one record

  predicate Trimmable(f: Field) {
    f.key !in PROTECTED_FIELDS && f.value.Text? && f.value.text != ""
  }

  /** A place in a record; places are ordered part by part. */
  datatype Place = Place(part: nat, index: nat)

  predicate IsPlace(r: Record, p: Place) { p.part < |r.parts| && p.index < |r.parts[p.part]| }

  function FieldAt(r: Record, p: Place): Field
    requires IsPlace(r, p)
  {
    r.parts[p.part][p.index]
  }

  predicate Precedes(p: Place, q: Place) { p.part < q.part || (p.part == q.part && p.index < q.index) }

  predicate TrimmableAt(r: Record, p: Place) { IsPlace(r, p) && Trimmable(FieldAt(r, p)) }

  /** Nothing but identifying fields is left. */
  ghost predicate Bare(r: Record) { forall p :: !TrimmableAt(r, p) }

  /** The first of the longest trimmable texts among the places before `end`. */
  ghost predicate LargestBefore(r: Record, best: Option<Place>, end: Place) {
    match best
    case None => forall q :: Precedes(q, end) ==> !TrimmableAt(r, q)
    case Some(p) =>
      && Precedes(p, end) && TrimmableAt(r, p)
      && forall q :: Precedes(q, end) && TrimmableAt(r, q) ==>
           && |FieldAt(r, q).value.text| <= |FieldAt(r, p).value.text|
           && (Precedes(q, p) ==> |FieldAt(r, q).value.text| < |FieldAt(r, p).value.text|)
  }

  lemma LargestStep(r: Record, best: Option<Place>, here: Place)
    requires IsPlace(r, here) && LargestBefore(r, best, here)
    ensures var f := FieldAt(r, here);
            var better := Trimmable(f) && (best.None? || |f.value.text| > |FieldAt(r, best.value).value.text|);
            LargestBefore(r, if better then Some(here) else best, Place(here.part, here.index + 1))
  {
    forall q ensures Precedes(q, Place(here.part, here.index + 1)) <==> Precedes(q, here) || q == here {
    }
  }

  lemma LargestSkips(r: Record, best: Option<Place>, part: nat)
    requires part < |r.parts| && LargestBefore(r, best, Place(part, |r.parts[part]|))
    ensures LargestBefore(r, best, Place(part + 1, 0))
  {
    forall q | Precedes(q, Place(part + 1, 0)) && TrimmableAt(r, q) ensures Precedes(q, Place(part, |r.parts[part]|)) {
    }
  }

  method LargestTrimmableText(r: Record) returns (best: Option<Place>)
    ensures LargestBefore(r, best, Place(|r.parts|, 0))
    ensures best.None? <==> Bare(r)
  {
    best := None;
    for part := 0 to |r.parts|
      invariant LargestBefore(r, best, Place(part, 0))
    {
      for index := 0 to |r.parts[part]|
        invariant LargestBefore(r, best, Place(part, index))
      {
        var f := r.parts[part][index];
        LargestStep(r, best, Place(part, index));
        if Trimmable(f) && (best.None? || |f.value.text| > |FieldAt(r, best.value).value.text|) {
          best := Some(Place(part, index));
        }
      }
      LargestSkips(r, best, part);
    }
    assert forall q :: TrimmableAt(r, q) ==> Precedes(q, Place(|r.parts|, 0));
  }

  function Without(r: Record, p: Place): Record
    requires IsPlace(r, p)
  {
    var part, key := r.parts[p.part], FieldAt(r, p).key;
    Record(r.id, r.web,
           r.parts[p.part := part[..p.index] + part[p.index + 1..]],
           if key in r.omitted then r.omitted else r.omitted + [key])
  }

  /** The record without the field at a place, which it names as omitted. */
  ghost predicate OneFieldLess(after: Record, before: Record, p: Place)
    requires IsPlace(before, p)
  {
    && after.id == before.id && after.web == before.web && |after.parts| == |before.parts|
    && (forall k :: 0 <= k < |before.parts| && k != p.part ==> after.parts[k] == before.parts[k])
    && |after.parts[p.part]| == |before.parts[p.part]| - 1
    && (forall i :: 0 <= i < |after.parts[p.part]| ==>
          after.parts[p.part][i] == before.parts[p.part][if i < p.index then i else i + 1])
    && (forall key :: key in after.omitted <==> key in before.omitted || key == FieldAt(before, p).key)
  }

  lemma WithoutIsOneLess(r: Record, p: Place)
    requires IsPlace(r, p)
    ensures OneFieldLess(Without(r, p), r, p)
  {
  }

  /** Fields only disappear, and only texts that identify nothing, each named as omitted. */
  ghost predicate FieldsTrimmed(after: seq<Field>, before: seq<Field>, omitted: seq<string>) {
    && (forall f :: f in after ==> f in before)
    && (forall f :: f in before && f !in after ==> Trimmable(f) && f.key in omitted)
  }

  /** What shrinking may do to a record: drop texts that identify nothing, and name each of them. */
  ghost predicate TrimmedFrom(after: Record, before: Record) {
    && after.id == before.id && after.web == before.web && |after.parts| == |before.parts|
    && before.omitted <= after.omitted
    && forall part :: 0 <= part < |before.parts| ==> FieldsTrimmed(after.parts[part], before.parts[part], after.omitted)
  }

  lemma FieldDropped(fields: seq<Field>, at: nat, before: seq<Field>, omitted: seq<string>, more: seq<string>)
    requires at < |fields| && Trimmable(fields[at]) && FieldsTrimmed(fields, before, omitted)
    requires omitted <= more && fields[at].key in more
    ensures FieldsTrimmed(fields[..at] + fields[at + 1..], before, more)
  {
    assert fields == fields[..at] + [fields[at]] + fields[at + 1..];
  }

  lemma WithoutTrims(r: Record, p: Place, before: Record)
    requires TrimmableAt(r, p) && TrimmedFrom(r, before)
    ensures TrimmedFrom(Without(r, p), before)
  {
    hide Trimmable;
    var after := Without(r, p);
    FieldDropped(r.parts[p.part], p.index, before.parts[p.part], r.omitted, after.omitted);
    forall k | 0 <= k < |before.parts| && k != p.part
      ensures FieldsTrimmed(after.parts[k], before.parts[k], after.omitted)
    {
      assert FieldsTrimmed(r.parts[k], before.parts[k], r.omitted);
    }
  }

  // Fitting the payload

  function Ids(records: seq<Record>): seq<string> { seq(|records|, i requires 0 <= i < |records| => records[i].id) }

  function Reversed(s: seq<string>): seq<string> {
    if |s| == 0 then [] else [s[|s| - 1]] + Reversed(s[..|s| - 1])
  }

  function FieldCount(parts: seq<seq<Field>>): nat {
    if |parts| == 0 then 0 else FieldCount(parts[..|parts| - 1]) + |parts[|parts| - 1]|
  }

  /** What is left to remove: records and their fields. */
  function Bulk(records: seq<Record>): nat {
    if |records| == 0 then 0 else Bulk(records[..|records| - 1]) + FieldCount(records[|records| - 1].parts) + 1
  }

  lemma {:induction false} FieldCountDrops(parts: seq<seq<Field>>, k: nat, less: seq<Field>)
    requires k < |parts| && |less| < |parts[k]|
    ensures FieldCount(parts[k := less]) < FieldCount(parts)
  {
    var last := |parts| - 1;
    if k < last {
      FieldCountDrops(parts[..last], k, less);
      assert parts[k := less][..last] == parts[..last][k := less];
    } else {
      assert parts[k := less][..last] == parts[..last];
    }
  }

  lemma {:induction false} BulkDrops(records: seq<Record>, k: nat, less: Record)
    requires k < |records| && FieldCount(less.parts) < FieldCount(records[k].parts)
    ensures Bulk(records[k := less]) < Bulk(records)
  {
    var last := |records| - 1;
    if k < last {
      BulkDrops(records[..last], k, less);
      assert records[k := less][..last] == records[..last][k := less];
    } else {
      assert records[k := less][..last] == records[..last];
    }
  }

  /** The last record that still has a text to drop, with the place of its largest one. */
  method LastTrimmable(records: seq<Record>) returns (k: int, place: Place)
    ensures -1 <= k < |records|
    ensures forall j :: k < j < |records| ==> Bare(records[j])
    ensures k >= 0 ==> LargestBefore(records[k], Some(place), Place(|records[k].parts|, 0))
  {
    k, place := |records| - 1, Place(0, 0);
    while k >= 0
      invariant -1 <= k < |records|
      invariant forall j :: k < j < |records| ==> Bare(records[j])
    {
      var found := LargestTrimmableText(records[k]);
      if found.Some? {
        place := found.value;
        return;
      }
      k := k - 1;
    }
  }

  /**
   * How far shrinking went: the kept records are a prefix with some texts dropped, the others are
   * named from the last one on, a record is touched only once all later ones are bare, and dropped
   * only once every kept one is.
   */
  ghost predicate Shrunk(p: Payload, original: Payload) {
    && p.status == original.status && p.missing == original.missing
    && |p.evidence| <= |original.evidence|
    && Ids(p.evidence) + Reversed(p.truncated) == Ids(original.evidence)
    && (forall i :: 0 <= i < |p.evidence| ==> TrimmedFrom(p.evidence[i], original.evidence[i]))
    && (forall i, j :: 0 <= i < j < |p.evidence| && p.evidence[i] != original.evidence[i] ==> Bare(p.evidence[j]))
    && (p.truncated != [] ==> forall i :: 0 <= i < |p.evidence| ==> Bare(p.evidence[i]))
  }

  /** Before any record is dropped, every kept one has lost each of its texts but those that identify it. */
  lemma DroppedOnlyBehindBare(p: Payload, original: Payload, i: nat, part: nat, f: Field)
    requires Shrunk(p, original) && p.truncated != [] && i < |p.evidence|
    requires part < |p.evidence[i].parts| && f in p.evidence[i].parts[part] && f.value.Text? && f.value.text != ""
    ensures f.key in ["evidence_id", "source_type", "group", "query", "searched_at", "freshness", "title", "url", "public_url"]
  {
    var r := p.evidence[i];
    var index :| 0 <= index < |r.parts[part]| && r.parts[part][index] == f;
    assert !TrimmableAt(r, Place(part, index));
  }

  lemma ShrunkByTrim(p: Payload, original: Payload, k: nat, place: Place)
    requires Shrunk(p, original) && k < |p.evidence| && TrimmableAt(p.evidence[k], place)
    requires forall j :: k < j < |p.evidence| ==> Bare(p.evidence[j])
    ensures Shrunk(p.(evidence := p.evidence[k := Without(p.evidence[k], place)]), original)
  {
    hide TrimmedFrom;
    assert !Bare(p.evidence[k]);
    var less := Without(p.evidence[k], place);
    var evidence := p.evidence[k := less];
    assert TrimmedFrom(less, original.evidence[k]) by { WithoutTrims(p.evidence[k], place, original.evidence[k]); }
    assert Ids(evidence) == Ids(p.evidence);
    assert forall i :: 0 <= i < k ==> p.evidence[i] == original.evidence[i];
  }

  lemma ShrunkByDrop(p: Payload, original: Payload)
    requires Shrunk(p, original) && p.evidence != []
    requires forall j :: 0 <= j < |p.evidence| ==> Bare(p.evidence[j])
    ensures var last := |p.evidence| - 1;
            Shrunk(p.(evidence := p.evidence[..last], truncated := p.truncated + [p.evidence[last].id]), original)
  {
    hide TrimmedFrom, Bare;
    var last := |p.evidence| - 1;
    var truncated := p.truncated + [p.evidence[last].id];
    assert truncated[..|p.truncated|] == p.truncated;
    assert Ids(p.evidence) == Ids(p.evidence[..last]) + [p.evidence[last].id];
    assert Ids(p.evidence[..last]) + Reversed(truncated) == Ids(p.evidence) + Reversed(p.truncated);
  }

  lemma NothingShrunk(p: Payload)
    requires p.truncated == []
    ensures Shrunk(p, p)
  {
  }

  /** The largest text of record k goes, when every later record is bare. */
  ghost predicate TrimStep(a: Payload, b: Payload, k: nat, place: Place) {
    && k < |a.evidence| && (forall j :: k < j < |a.evidence| ==> Bare(a.evidence[j]))
    && LargestBefore(a.evidence[k], Some(place), Place(|a.evidence[k].parts|, 0))
    && |b.evidence| == |a.evidence| && b == a.(evidence := a.evidence[k := b.evidence[k]])
    && OneFieldLess(b.evidence[k], a.evidence[k], place)
  }

  /** The last record goes and is named, when no record has a text to drop. */
  ghost predicate DropStep(a: Payload, b: Payload) {
    && a.evidence != [] && (forall j :: 0 <= j < |a.evidence| ==> Bare(a.evidence[j]))
    && var last := |a.evidence| - 1;
       b == a.(evidence := a.evidence[..last], truncated := a.truncated + [a.evidence[last].id])
  }

  ghost predicate Removal(a: Payload, b: Payload) { DropStep(a, b) || exists k: nat, place :: TrimStep(a, b, k, place) }

  /** One removal at a time, each from a payload that did not fit. */
  ghost predicate Shortening(trail: seq<Payload>, maxChars: int, size: Payload -> nat) {
    && |trail| > 0
    && forall i :: 0 <= i < |trail| - 1 ==>
         trail[i].evidence != [] && size(trail[i]) > maxChars && Removal(trail[i], trail[i + 1])
  }

  lemma OneMoreRemoval(trail: seq<Payload>, next: Payload, maxChars: int, size: Payload -> nat)
    requires Shortening(trail, maxChars, size)
    requires var a := trail[|trail| - 1]; a.evidence != [] && size(a) > maxChars && Removal(a, next)
    ensures Shortening(trail + [next], maxChars, size)
  {
    hide Removal;
  }

  lemma TrimRemoves(p: Payload, k: nat, place: Place)
    requires k < |p.evidence| && (forall j :: k < j < |p.evidence| ==> Bare(p.evidence[j]))
    requires LargestBefore(p.evidence[k], Some(place), Place(|p.evidence[k].parts|, 0))
    ensures Removal(p, p.(evidence := p.evidence[k := Without(p.evidence[k], place)]))
  {
    hide Bare;
    WithoutIsOneLess(p.evidence[k], place);
    var after := p.(evidence := p.evidence[k := Without(p.evidence[k], place)]);
    hide LargestBefore, OneFieldLess;
    assert TrimStep(p, after, k, place);
  }

  lemma DropRemoves(p: Payload)
    requires p.evidence != [] && forall j :: 0 <= j < |p.evidence| ==> Bare(p.evidence[j])
    ensures var last := |p.evidence| - 1;
            var after := p.(evidence := p.evidence[..last], truncated := p.truncated + [p.evidence[last].id]);
            Removal(p, after) && Bulk(after.evidence) < Bulk(p.evidence)
  {
    hide Bare;
  }

  /** Shrink until the payload fits or is empty; `trail` is every payload on the way. */
  method FitEvidencePayload(original: Payload, maxChars: int, size: Payload -> nat)
    returns (p: Payload, removed: bool, ghost trail: seq<Payload>)
    requires original.truncated == []
    ensures Shortening(trail, maxChars, size) && trail[0] == original && trail[|trail| - 1] == p
    ensures removed <==> |trail| > 1
    ensures p.evidence == [] || size(p) <= maxChars
    ensures Shrunk(p, original)
    ensures removed <==> original.evidence != [] && size(original) > maxChars
    ensures !removed ==> p == original
    ensures removed ==> Bulk(p.evidence) < Bulk(original.evidence)
  {
    hide Shrunk, Ids, Removal, Bulk;
    p, removed := original, false;
    trail := [p];
    NothingShrunk(original);
    while p.evidence != [] && size(p) > maxChars
      invariant Shrunk(p, original)
      invariant Shortening(trail, maxChars, size) && trail[0] == original && trail[|trail| - 1] == p
      invariant removed <==> |trail| > 1
      invariant !removed ==> p == original
      invariant removed ==> original.evidence != [] && size(original) > maxChars && Bulk(p.evidence) < Bulk(original.evidence)
      decreases Bulk(p.evidence)
    {
      var k, place := LastTrimmable(p.evidence);
      if k >= 0 {
        var less := Without(p.evidence[k], place);
        ShrunkByTrim(p, original, k, place);
        FieldCountDrops(p.evidence[k].parts, place.part, less.parts[place.part]);
        BulkDrops(p.evidence, k, less);
        TrimRemoves(p, k, place);
        p := p.(evidence := p.evidence[k := less]);
      } else {
        ShrunkByDrop(p, original);
        DropRemoves(p);
        var last := |p.evidence| - 1;
        p := p.(evidence := p.evidence[..last], truncated := p.truncated + [p.evidence[last].id]);
      }
      OneMoreRemoval(trail, p, maxChars, size);
      trail := trail + [p];
      removed := true;
    }
  }

  // The whole request

  /** Web page bodies are read by range elsewhere; they never enter this payload. */
  function WithoutPageBody(r: Record): Record {
    if r.web && |r.parts| > 1 then r.(parts := r.parts[1 := DropKeys(r.parts[1], PAGE_BODY_FIELDS)]) else r
  }

  function DropKeys(fields: seq<Field>, keys: set<string>): seq<Field> {
    if |fields| == 0 then []
    else
      var rest, last := DropKeys(fields[..|fields| - 1], keys), fields[|fields| - 1];
      if last.key in keys then rest else rest + [last]
  }

  lemma {:induction false} DropKeysMeaning(fields: seq<Field>, keys: set<string>)
    ensures forall f :: f in DropKeys(fields, keys) <==> f in fields && f.key !in keys
  {
    if |fields| > 0 {
      DropKeysMeaning(fields[..|fields| - 1], keys);
      assert fields == fields[..|fields| - 1] + [fields[|fields| - 1]];
    }
  }

  /** A web record loses its page text and its image candidates, and nothing else. */
  lemma PageBodyGone(r: Record)
    ensures var after := WithoutPageBody(r);
            && after.id == r.id && after.web == r.web && after.omitted == r.omitted && |after.parts| == |r.parts|
            && (forall k, f :: 0 <= k < |r.parts| ==>
                  (f in after.parts[k] <==>
                     f in r.parts[k] && !(r.web && k == 1 && (f.key == "page_text" || f.key == "image_candidates"))))
            && (!r.web ==> after == r)
  {
    if r.web && |r.parts| > 1 {
      DropKeysMeaning(r.parts[1], PAGE_BODY_FIELDS);
    }
  }

  /** No retrieved web record holds the text of its page. */
  lemma NoPageTextIsRetrieved(p: Payload, store: map<string, Record>, i: nat, f: Field)
    requires Genuine(p, store) && i < |p.evidence| && p.evidence[i].web && |p.evidence[i].parts| > 1
    requires f in p.evidence[i].parts[1]
    ensures f.key != "page_text" && f.key != "image_candidates"
  {
    var stored := store[p.evidence[i].id];
    PageBodyGone(stored);
    assert FieldsTrimmed(p.evidence[i].parts[1], WithoutPageBody(stored).parts[1], p.evidence[i].omitted);
    assert f in WithoutPageBody(stored).parts[1];
  }

  /** Order-preserving selection of the ids that are, or are not, stored. */
  function Select(ids: seq<string>, store: map<string, Record>, known: bool): seq<string> {
    if |ids| == 0 then []
    else
      var rest, last := Select(ids[..|ids| - 1], store, known), ids[|ids| - 1];
      if (last in store) == known then rest + [last] else rest
  }

  ghost predicate StoreOk(store: map<string, Record>) {
    forall id :: id in store ==> store[id].id == id
  }

  ghost predicate FromStore(records: seq<Record>, store: map<string, Record>) {
    forall i :: 0 <= i < |records| ==> records[i].id in store && records[i] == WithoutPageBody(store[records[i].id])
  }

  method Lookup(ids: seq<string>, store: map<string, Record>) returns (evidence: seq<Record>, missing: seq<string>)
    requires StoreOk(store)
    ensures Ids(evidence) == Select(ids, store, true)
    ensures missing == Select(ids, store, false)
    ensures FromStore(evidence, store)
  {
    evidence, missing := [], [];
    for i := 0 to |ids|
      invariant Ids(evidence) == Select(ids[..i], store, true)
      invariant missing == Select(ids[..i], store, false)
      invariant FromStore(evidence, store)
    {
      assert ids[..i + 1][..i] == ids[..i];
      if ids[i] in store {
        var record := WithoutPageBody(store[ids[i]]);
        assert Ids(evidence + [record]) == Ids(evidence) + [ids[i]];
        evidence := evidence + [record];
      } else {
        missing := missing + [ids[i]];
      }
    }
    assert ids[..|ids|] == ids;
  }

  /** Known and missing ids split the request: each requested id is in exactly one of the two. */
  lemma {:induction false} SelectSplits(ids: seq<string>, store: map<string, Record>)
    ensures |Select(ids, store, true)| + |Select(ids, store, false)| == |ids|
    ensures forall id :: id in Select(ids, store, true) <==> id in ids && id in store
    ensures forall id :: id in Select(ids, store, false) <==> id in ids && id !in store
  {
    if |ids| > 0 {
      SelectSplits(ids[..|ids| - 1], store);
      assert ids == ids[..|ids| - 1] + [ids[|ids| - 1]];
    }
  }

  function InitialStatus(evidence: seq<Record>, missing: seq<string>): Status {
    if evidence == [] then NotFound else if missing != [] then Partial else Ok
  }

  /** Kept ids, then truncated ones reversed, are the known ids in order; missing ones are the rest; the status says which. */
  ghost predicate Accounted(p: Payload, ids: seq<string>, store: map<string, Record>) {
    && Ids(p.evidence) + Reversed(p.truncated) == Select(ids, store, true)
    && p.missing == Select(ids, store, false)
    && (p.truncated != [] ==> p.status == Truncated)
    && (p.status == NotFound <==> forall id :: id in ids ==> id !in store)
    && (p.status == Partial ==> p.missing != [] && p.evidence != [])
    && (p.status == Ok ==> Ids(p.evidence) == ids)
  }

  /** Every kept record is the stored one, short of its page body and of the texts it names as omitted. */
  ghost predicate Genuine(p: Payload, store: map<string, Record>) {
    forall i :: 0 <= i < |p.evidence| ==>
      p.evidence[i].id in store && TrimmedFrom(p.evidence[i], WithoutPageBody(store[p.evidence[i].id]))
  }

  lemma {:induction false} SelectAll(ids: seq<string>, store: map<string, Record>)
    requires Select(ids, store, false) == []
    ensures Select(ids, store, true) == ids
  {
    if |ids| > 0 {
      SelectAll(ids[..|ids| - 1], store);
    }
  }

  lemma GatheredIsAccounted(p: Payload, ids: seq<string>, store: map<string, Record>)
    requires p.truncated == [] && p.status == InitialStatus(p.evidence, p.missing)
    requires Ids(p.evidence) == Select(ids, store, true) && p.missing == Select(ids, store, false)
    ensures Accounted(p, ids, store)
  {
    SelectSplits(ids, store);
    assert |Ids(p.evidence)| == |p.evidence|;
    if p.evidence != [] {
      assert Ids(p.evidence)[0] in Select(ids, store, true);
    }
    if p.missing == [] {
      SelectAll(ids, store);
    }
  }

  lemma ShrunkIsAccounted(p: Payload, original: Payload, ids: seq<string>, store: map<string, Record>)
    requires Accounted(original, ids, store) && original.truncated == [] && original.evidence != [] && Shrunk(p, original)
    ensures Accounted(p.(status := Truncated), ids, store)
  {
    hide TrimmedFrom, Bare, TrimmableAt;
    SelectSplits(ids, store);
    assert Ids(original.evidence) == Ids(original.evidence) + Reversed(original.truncated);
    assert Ids(original.evidence)[0] in Select(ids, store, true);
  }

  lemma ShrunkIsGenuine(p: Payload, original: Payload, store: map<string, Record>)
    requires FromStore(original.evidence, store) && Shrunk(p, original)
    ensures Genuine(p, store)
  {
    hide Bare, WithoutPageBody, Ids;
  }

  /** Answering a valid request within a budget; a budget of zero or less does not shrink anything. */
  method RetrieveEvidence(store: map<string, Record>, ids: seq<string>, maxChars: int, size: Payload -> nat)
    returns (p: Payload, ghost trail: seq<Payload>)
    requires StoreOk(store)
    ensures p.status == Truncated ==> Shortening(trail, maxChars, size) && |trail| > 1 && p == trail[|trail| - 1].(status := Truncated)
    ensures trail != [] && Ids(trail[0].evidence) == Select(ids, store, true) && FromStore(trail[0].evidence, store) && trail[0].truncated == []
    ensures Accounted(p, ids, store) && Genuine(p, store)
    ensures p.status == Truncated ==>
              maxChars > 0 && (p.evidence == [] || size(p.(status := InitialStatus(p.evidence, p.missing))) <= maxChars)
    ensures p.status != Truncated && maxChars > 0 && p.evidence != [] ==> size(p) <= maxChars
  {
    hide Accounted, Genuine, Ids, Select, FromStore;
    var evidence, missing := Lookup(ids, store);
    var original := Payload(InitialStatus(evidence, missing), evidence, missing, []);
    GatheredIsAccounted(original, ids, store);
    NothingShrunk(original);
    ShrunkIsGenuine(original, original, store);
    p, trail := original, [original];
    if maxChars > 0 {
      var fitted, removed, shortening := FitEvidencePayload(original, maxChars, size);
      trail := shortening;
      if removed {
        ShrunkIsAccounted(fitted, original, ids, store);
        ShrunkIsGenuine(fitted, original, store);
        GenuineAnyStatus(fitted, store);
        p := fitted.(status := Truncated);
      }
    }
  }

  lemma GenuineAnyStatus(p: Payload, store: map<string, Record>)
    requires Genuine(p, store)
    ensures Genuine(p.(status := Truncated), store)
  {
  }

  /** The tool call: a malformed request, or ids that do not pass, are refused; otherwise the distinct ids are answered. */
  method ExecuteGetEvidence(store: map<string, Record>, request: Option<seq<Value>>, maxIds: int, maxChars: int,
                            strip: string -> string, size: Payload -> nat) returns (r: Result<Payload>)
    requires StoreOk(store)
    ensures r.Success? <==>
              && request.Some? && request.value != [] && (forall i :: 0 <= i < |request.value| ==> ValidId(request.value[i], strip))
              && |FirstOccurrences(StrippedIds(request.value, strip))| <= maxIds
    ensures r.Success? ==> Accounted(r.value, FirstOccurrences(StrippedIds(request.value, strip)), store) && Genuine(r.value, store)
    ensures r.Success? && maxChars > 0 && r.value.status != Truncated && r.value.evidence != [] ==> size(r.value) <= maxChars
  {
    hide Accounted, Genuine, Shrunk;
    if request.None? {
      return Failure("Tool arguments must be a JSON object.");
    }
    var valid := ValidateEvidenceIds(request.value, maxIds, strip);
    if valid.Failure? {
      return Failure(valid.reason);
    }
    var payload, _ := RetrieveEvidence(store, valid.value, maxChars, size);
    return Success(payload);
  }
}
