/** The journal screen (components/JournalInterface.tsx): submitting a text
    for analysis, building the entry and its persona responses, and the
    newest-first listing. The clock reading is a parameter; the component
    reads `Date.now()` several times in one submission, which the model
    takes to be the same instant. */
module Journal {
  import opened Wrappers
  import opened Seqs
  import opened Text
  import opened Types
  import Constants
  import GeminiService

  datatype ViewMode = List | Write

  /** The component's own state. */
  datatype JournalView = JournalView(text: string, isAnalyzing: bool, viewMode: ViewMode)

  /** The submit button is enabled when no analysis is running and the text
      is not blank. */
  predicate SubmitEnabled(v: JournalView) {
    !v.isAnalyzing && !AllSpace(v.text)
  }

  /** The id of the `i`-th response of an entry created at `now`. */
  function ResponseId(now: nat, i: nat): (r: string)
    ensures StartsWith(r, "res-")
  {
    "res-" + NatToString(now) + "-" + NatToString(i)
  }

  /** Response ids of one entry differ by index. */
  lemma ResponseIdInjective(now: nat, i: nat, j: nat)
    requires ResponseId(now, i) == ResponseId(now, j)
    ensures i == j
  {
    var p := "res-" + NatToString(now) + "-";
    assert ResponseId(now, i) == p + NatToString(i);
    assert ResponseId(now, j) == p + NatToString(j);
    assert NatToString(i) == ResponseId(now, i)[|p|..];
    assert NatToString(j) == ResponseId(now, j)[|p|..];
    NatToStringInjective(i, j);
  }

  /** The response message built from the `i`-th reaction. */
  function Response(now: nat, i: nat, r: GeminiService.Reaction): Message {
    Message(ResponseId(now, i), r.roleId, r.text, now, 0, false, None, None, Some(r.isCheck))
  }

  /** The entry a successful analysis produces: keyed by the clock reading,
      holding the text as typed, the analysis' summary and mood, and one
      unliked response per reaction, in order. */
  function MakeEntry(content: string, a: GeminiService.Analysis, now: nat): (e: JournalEntry)
    ensures AllDigits(e.id) && ParseDecimal(e.id) == now && e.timestamp == now
    ensures e.content == content && e.summary == a.summary && e.mood == a.mood
    ensures |e.responses| == |a.reactions|
    ensures forall i :: 0 <= i < |e.responses| ==>
              && e.responses[i].roleId == a.reactions[i].roleId
              && e.responses[i].text == a.reactions[i].text
              && e.responses[i].isCheck == Some(a.reactions[i].isCheck)
              && e.responses[i].likes == 0 && !e.responses[i].likedByUser
              && e.responses[i].timestamp == now
  {
    ParseNatToString(now);
    JournalEntry(NatToString(now), now, content, a.summary, a.mood,
      seq(|a.reactions|, i requires 0 <= i < |a.reactions| => Response(now, i, a.reactions[i])))
  }

  /** The responses of an entry have pairwise distinct ids, none of which
      marks a chat event. */
  lemma MakeEntryIds(content: string, a: GeminiService.Analysis, now: nat)
    ensures var rs := MakeEntry(content, a, now).responses;
      && (forall i, j :: 0 <= i < j < |rs| ==> rs[i].id != rs[j].id)
      && (forall i :: 0 <= i < |rs| ==> !StartsWith(rs[i].id, "event-"))
  {
    var rs := MakeEntry(content, a, now).responses;
    forall i, j | 0 <= i < j < |rs| ensures rs[i].id != rs[j].id {
      if rs[i].id == rs[j].id {
        ResponseIdInjective(now, i, j);
      }
    }
    forall i | 0 <= i < |rs| ensures !StartsWith(rs[i].id, "event-") {
      assert rs[i].id[1] == 'e';
    }
  }

  /** The result of one submission: the component state, the journal, and
      whether the failure alert was raised. */
  datatype Submission = Submission(view: JournalView, entries: seq<JournalEntry>, alerted: bool)

  /** `handleSubmit` with the analysis call and `JSON.parse` as parameters.
      A blank text does nothing. Otherwise the text is analysed; a null
      analysis raises the alert and keeps the text for another try; a
      successful one appends the entry, clears the text and returns to the
      list. Either way the busy flag ends cleared. */
  function HandleSubmit(v: JournalView, entries: seq<JournalEntry>, call: GeminiService.CallResult,
                        parse: string -> GeminiService.Json<GeminiService.Analysis>, now: nat): (r: Submission)
    requires parse("null") == GeminiService.JsonNull
    ensures AllSpace(v.text) ==> r == Submission(v, entries, false)
    ensures !AllSpace(v.text) ==> !r.view.isAnalyzing
    ensures !AllSpace(v.text) && GeminiService.AnalyzeJournalEntry(call, parse).None? ==>
              r == Submission(v.(isAnalyzing := false), entries, true)
    ensures !AllSpace(v.text) && GeminiService.AnalyzeJournalEntry(call, parse).Some? ==>
              && !r.alerted && r.view == JournalView("", false, List)
              && |r.entries| == |entries| + 1 && r.entries[..|entries|] == entries
              && r.entries[|entries|] == MakeEntry(v.text, GeminiService.AnalyzeJournalEntry(call, parse).value, now)
    ensures call.Threw? && !AllSpace(v.text) ==> r.alerted && r.entries == entries
  {
    TrimEmptyIffAllSpace(v.text);
    if Trim(v.text) == "" then Submission(v, entries, false)
    else
      match GeminiService.AnalyzeJournalEntry(call, parse)
      case None => Submission(v.(isAnalyzing := false), entries, true)
      case Some(a) =>
        Submission(JournalView("", false, List), entries + [MakeEntry(v.text, a, now)], false)
  }

  /** The submit button and the handler agree: on a view with no analysis
      running, the handler acts (it analyses, then alerts or appends) exactly
      when the button is enabled. */
  lemma SubmitMatchesButton(v: JournalView, entries: seq<JournalEntry>, call: GeminiService.CallResult,
                            parse: string -> GeminiService.Json<GeminiService.Analysis>, now: nat)
    requires parse("null") == GeminiService.JsonNull
    requires !v.isAnalyzing
    ensures var r := HandleSubmit(v, entries, call, parse, now);
            SubmitEnabled(v) <==> r.alerted || |r.entries| == |entries| + 1
  {
  }

  /** The journal only grows: a submission keeps every earlier entry and
      adds at most one. */
  lemma SubmitOnlyAppends(v: JournalView, entries: seq<JournalEntry>, call: GeminiService.CallResult,
                          parse: string -> GeminiService.Json<GeminiService.Analysis>, now: nat)
    requires parse("null") == GeminiService.JsonNull
    ensures var r := HandleSubmit(v, entries, call, parse, now);
            |entries| <= |r.entries| <= |entries| + 1 && r.entries[..|entries|] == entries
  {
  }

  // ---------------------------------------------------------------------
  // The listing: `entries.sort((a, b) => b.timestamp - a.timestamp)`

  /** Newest first. */
  predicate NewestFirst(es: seq<JournalEntry>) {
    forall i, j :: 0 <= i < j < |es| ==> es[i].timestamp >= es[j].timestamp
  }

  /** Places `e` after every entry at least as new, so that entries with
      equal timestamps keep their relative order. */
  function Insert(e: JournalEntry, sorted: seq<JournalEntry>): (r: seq<JournalEntry>)
    requires NewestFirst(sorted)
    ensures NewestFirst(r)
    ensures multiset(r) == multiset(sorted) + multiset{e}
  {
    if sorted == [] then [e]
    else if sorted[0].timestamp >= e.timestamp then
      var rest := Insert(e, sorted[1..]);
      assert sorted == [sorted[0]] + sorted[1..];
      NoNewerThan(sorted[0], sorted[1..], e, rest);
      [sorted[0]] + rest
    else [e] + sorted
  }

  /** An entry at least as new as every entry of a newest-first `t` and as
      `e` can head any rearrangement of `t` plus `e`. */
  lemma NoNewerThan(h: JournalEntry, t: seq<JournalEntry>, e: JournalEntry, rest: seq<JournalEntry>)
    requires NewestFirst([h] + t) && h.timestamp >= e.timestamp
    requires NewestFirst(rest) && multiset(rest) == multiset(t) + multiset{e}
    ensures NewestFirst([h] + rest)
  {
    forall k | 0 <= k < |rest| ensures h.timestamp >= rest[k].timestamp {
      assert rest[k] in multiset(rest);
      if rest[k] != e {
        assert rest[k] in multiset(t);
        var i :| 0 <= i < |t| && t[i] == rest[k];
        assert ([h] + t)[0] == h && ([h] + t)[i + 1] == t[i];
      }
    }
    var r := [h] + rest;
    forall i, j | 0 <= i < j < |r| ensures r[i].timestamp >= r[j].timestamp {
      if i > 0 {
        assert r[i] == rest[i - 1] && r[j] == rest[j - 1];
      } else {
        assert r[j] == rest[j - 1];
      }
    }
  }

  /** The listing order: a stable sort of the journal, newest first. */
  function DisplayOrder(es: seq<JournalEntry>): (r: seq<JournalEntry>)
    ensures NewestFirst(r)
    ensures multiset(r) == multiset(es)
  {
    if es == [] then []
    else
      assert es == es[..|es| - 1] + [es[|es| - 1]];
      Insert(es[|es| - 1], DisplayOrder(es[..|es| - 1]))
  }

  /** A journal already newest first lists as it is. */
  lemma {:induction false} DisplaySortedIsIdentity(es: seq<JournalEntry>)
    requires NewestFirst(es)
    ensures DisplayOrder(es) == es
  {
    if es != [] {
      var init := es[..|es| - 1];
      DisplaySortedIsIdentity(init);
      InsertLast(es[|es| - 1], init);
      assert init + [es[|es| - 1]] == es;
    }
  }

  /** Inserting an entry no newer than any other appends it. */
  lemma {:induction false} InsertLast(e: JournalEntry, sorted: seq<JournalEntry>)
    requires NewestFirst(sorted)
    requires forall k :: 0 <= k < |sorted| ==> sorted[k].timestamp >= e.timestamp
    ensures Insert(e, sorted) == sorted + [e]
  {
    if sorted != [] {
      InsertLast(e, sorted[1..]);
      assert sorted == [sorted[0]] + sorted[1..];
    }
  }

  /** The entries in reverse order. */
  function Reverse(es: seq<JournalEntry>): (r: seq<JournalEntry>)
    ensures |r| == |es|
    ensures forall k :: 0 <= k < |es| ==> r[k] == es[|es| - 1 - k]
  {
    if es == [] then [] else [es[|es| - 1]] + Reverse(es[..|es| - 1])
  }

  /** A journal written with a clock that always moves forward lists in
      reverse order of writing. */
  lemma {:induction false} DisplayIsReverseWhenClockAdvances(es: seq<JournalEntry>)
    requires forall i, j :: 0 <= i < j < |es| ==> es[i].timestamp < es[j].timestamp
    ensures DisplayOrder(es) == Reverse(es)
  {
    if es != [] {
      var init := es[..|es| - 1];
      var e := es[|es| - 1];
      DisplayIsReverseWhenClockAdvances(init);
      var d := DisplayOrder(init);
      assert d == Reverse(init);
      assert forall k :: 0 <= k < |d| ==> d[k].timestamp < e.timestamp;
      InsertNewest(e, d);
    }
  }

  /** Inserting an entry newer than every other puts it first. */
  lemma InsertNewest(e: JournalEntry, sorted: seq<JournalEntry>)
    requires NewestFirst(sorted)
    requires forall k :: 0 <= k < |sorted| ==> sorted[k].timestamp < e.timestamp
    ensures Insert(e, sorted) == [e] + sorted
  {
  }

  /** The responses the listing shows: those whose role keys the constant
      roster (`CHARACTERS[res.roleId]`), in order. */
  function ShownResponses(e: JournalEntry): (r: seq<Message>)
    ensures forall m :: m in r <==> m in e.responses && m.roleId in Constants.ShapeKeys()
  {
    Filter(e.responses, (m: Message) => m.roleId in Constants.ShapeKeys())
  }
}
