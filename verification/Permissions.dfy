/**
 Permission review over manifest updates (src/ecosystem.py: `permission_diff`,
 `require_permission_review`), for one update and for chains of them.
 */
module Permissions {
  import opened Wrappers
  import opened Text
  import opened Manifests

  const PERMISSION_FIELDS: seq<string> :=
    ["actions", "data_read", "data_write", "recipient_classes", "egress", "filesystem", "devices"]

  /** `{str(v) for v in governance.get(field, [])}`; no governance counts as an empty one. */
  function Values(g: Option<Governance>, field: string): (vs: set<string>)
    ensures forall v :: v in vs <==> g.Some? && field in g.value.lists && v in g.value.lists[field]
  {
    if g.Some? && field in g.value.lists then set v | v in g.value.lists[field] else {}
  }

  function Risk(g: Option<Governance>): Option<string> {
    if g.Some? then g.value.risk else None
  }

  function Confirmation(g: Option<Governance>): Option<string> {
    if g.Some? then g.value.confirmation else None
  }

  /** Python's `str` of an optional text. */
  function Show(t: Option<string>): string {
    if t.Some? then t.value else "None"
  }

  function Tag(field: string, value: string): string {
    field + ":" + value
  }

  function ChangeNote(name: string, before: Option<string>, after: Option<string>): seq<string> {
    if before == after then [] else [Tag(name, Show(before) + "->" + Show(after))]
  }

  // ---------------------------------------------------------------- permission_diff

  function Tagged(field: string, values: seq<string>): (r: seq<string>)
    ensures |r| == |values|
    ensures forall i :: 0 <= i < |values| ==> r[i] == Tag(field, values[i])
  {
    seq(|values|, i requires 0 <= i < |values| => Tag(field, values[i]))
  }

  /** The values `to` has and `from` has not, field by field, each field sorted. */
  ghost function Gained(from: Option<Governance>, to: Option<Governance>, fields: seq<string>): seq<string> {
    if fields == [] then []
    else
      var last := fields[|fields| - 1];
      Gained(from, to, fields[..|fields| - 1]) + Tagged(last, Listing(Values(to, last) - Values(from, last)))
  }

  ghost function Added(previous: Option<Governance>, candidate: Option<Governance>): seq<string> {
    Gained(previous, candidate, PERMISSION_FIELDS)
    + ChangeNote("risk", Risk(previous), Risk(candidate))
    + ChangeNote("confirmation", Confirmation(previous), Confirmation(candidate))
  }

  ghost function Removed(previous: Option<Governance>, candidate: Option<Governance>): seq<string> {
    Gained(candidate, previous, PERMISSION_FIELDS)
  }

  /** The loop over the fields. */
  method DiffFields(previous: Option<Governance>, candidate: Option<Governance>, fields: seq<string>)
    returns (added: seq<string>, removed: seq<string>)
    ensures added == Gained(previous, candidate, fields) && removed == Gained(candidate, previous, fields)
  {
    added, removed := [], [];
    for i := 0 to |fields|
      invariant added == Gained(previous, candidate, fields[..i])
      invariant removed == Gained(candidate, previous, fields[..i])
    {
      var field := fields[i];
      assert fields[..i + 1][..i] == fields[..i];
      var before, after := Values(previous, field), Values(candidate, field);
      var gained := SortSet(after - before);
      var lost := SortSet(before - after);
      added := added + Tagged(field, gained);
      removed := removed + Tagged(field, lost);
    }
    assert fields[..|fields|] == fields;
  }

  method PermissionDiff(previous: Option<Governance>, candidate: Option<Governance>)
    returns (added: seq<string>, removed: seq<string>)
    ensures added == Added(previous, candidate) && removed == Removed(previous, candidate)
  {
    added, removed := DiffFields(previous, candidate, PERMISSION_FIELDS);
    if Risk(previous) != Risk(candidate) {
      added := added + [Tag("risk", Show(Risk(previous)) + "->" + Show(Risk(candidate)))];
    }
    if Confirmation(previous) != Confirmation(candidate) {
      added := added + [Tag("confirmation", Show(Confirmation(previous)) + "->" + Show(Confirmation(candidate)))];
    }
  }

  method RequirePermissionReview(previous: Option<Governance>, candidate: Option<Governance>, approved: bool)
    returns (r: Result<()>)
    ensures r == if approved || OnlyShrinks(previous, candidate) then Ok(()) else Err(PolicyDenied)
  {
    var added, _ := PermissionDiff(previous, candidate);
    AddedIsEmpty(previous, candidate);
    if added != [] && !approved {
      return Err(PolicyDenied);
    }
    return Ok(());
  }

  // ---------------------------------------------------------------- the texts decode uniquely

  /** The seven fields under review. */
  predicate IsReviewed(f: string) {
    || f == "actions" || f == "data_read" || f == "data_write" || f == "recipient_classes"
    || f == "egress" || f == "filesystem" || f == "devices"
  }

  lemma ReviewedFields()
    ensures forall f :: f in PERMISSION_FIELDS <==> IsReviewed(f)
  {
    assert PERMISSION_FIELDS[0] == "actions" && PERMISSION_FIELDS[1] == "data_read" && PERMISSION_FIELDS[2] == "data_write"
      && PERMISSION_FIELDS[3] == "recipient_classes" && PERMISSION_FIELDS[4] == "egress"
      && PERMISSION_FIELDS[5] == "filesystem" && PERMISSION_FIELDS[6] == "devices";
  }

  predicate ColonFree(s: string) {
    ':' !in s
  }

  lemma FirstColon(f: string, v: string)
    requires ColonFree(f)
    ensures forall i :: 0 <= i < |f| ==> Tag(f, v)[i] != ':'
    ensures |f| < |Tag(f, v)| && Tag(f, v)[|f|] == ':'
    ensures f == Tag(f, v)[..|f|] && v == Tag(f, v)[|f| + 1..]
  {
    assert forall i :: 0 <= i < |f| ==> Tag(f, v)[i] == f[i];
  }

  lemma TagDecodes(f: string, v: string, g: string, w: string)
    requires ColonFree(f) && ColonFree(g)
    requires Tag(f, v) == Tag(g, w)
    ensures f == g && v == w
  {
    FirstColon(f, v);
    FirstColon(g, w);
    assert |f| == |g|;
  }

  lemma FieldsAreColonFree()
    ensures forall f :: IsReviewed(f) ==> ColonFree(f) && f != "risk" && f != "confirmation"
    ensures ColonFree("risk") && ColonFree("confirmation")
  {
  }

  /** One field's changes as they are listed. */
  function Section(field: string, values: seq<string>): seq<string> {
    seq(|values|, i requires 0 <= i < |values| => field + ":" + values[i])
  }

  ghost function Entered(previous: Option<Governance>, candidate: Option<Governance>, field: string): seq<string> {
    Section(field, Listing(Values(candidate, field) - Values(previous, field)))
  }

  ghost function ScalarNote(name: string, before: Option<string>, after: Option<string>): seq<string> {
    if before == after then []
    else [name + ":" + (if before.Some? then before.value else "None") + "->" + (if after.Some? then after.value else "None")]
  }

  /** The seven fields in their order. */
  ghost function Sections(previous: Option<Governance>, candidate: Option<Governance>): seq<string> {
    Entered(previous, candidate, "actions") + Entered(previous, candidate, "data_read")
    + Entered(previous, candidate, "data_write") + Entered(previous, candidate, "recipient_classes")
    + Entered(previous, candidate, "egress") + Entered(previous, candidate, "filesystem")
    + Entered(previous, candidate, "devices")
  }

  /** The lists spelled out: field by field, the values of each in order, the scalars last and only as added. */
  lemma DiffSpelledOut(previous: Option<Governance>, candidate: Option<Governance>)
    ensures Added(previous, candidate)
            == Sections(previous, candidate)
               + ScalarNote("risk", if previous.Some? then previous.value.risk else None,
                                    if candidate.Some? then candidate.value.risk else None)
               + ScalarNote("confirmation", if previous.Some? then previous.value.confirmation else None,
                                            if candidate.Some? then candidate.value.confirmation else None)
    ensures Removed(previous, candidate) == Sections(candidate, previous)
  {
    SevenSections(previous, candidate);
    SevenSections(candidate, previous);
    NoteSpelledOut("risk", Risk(previous), Risk(candidate));
    NoteSpelledOut("confirmation", Confirmation(previous), Confirmation(candidate));
  }

  lemma NoteSpelledOut(name: string, before: Option<string>, after: Option<string>)
    ensures ChangeNote(name, before, after) == ScalarNote(name, before, after)
  {
    assert name + ":" + (Show(before) + "->" + Show(after)) == name + ":" + Show(before) + "->" + Show(after);
  }

  lemma SevenSections(from: Option<Governance>, to: Option<Governance>)
    ensures Gained(from, to, PERMISSION_FIELDS) == Sections(from, to)
  {
    var f := PERMISSION_FIELDS;
    assert f[..0] == [] && f[..7] == f;
    assert forall i :: 0 <= i < 7 ==> f[..i + 1] == f[..i] + [f[i]];
    LastSection(from, to, f[..0], f[0]);
    LastSection(from, to, f[..1], f[1]);
    LastSection(from, to, f[..2], f[2]);
    LastSection(from, to, f[..3], f[3]);
    LastSection(from, to, f[..4], f[4]);
    LastSection(from, to, f[..5], f[5]);
    LastSection(from, to, f[..6], f[6]);
    assert Gained(from, to, f[..1]) == Entered(from, to, "actions");
  }

  lemma LastSection(from: Option<Governance>, to: Option<Governance>, fields: seq<string>, last: string)
    ensures Gained(from, to, fields + [last]) == Gained(from, to, fields) + Entered(from, to, last)
    ensures Gained(from, to, []) == []
  {
    assert (fields + [last])[..|fields|] == fields;
    var listed := Listing(Values(to, last) - Values(from, last));
    assert Tagged(last, listed) == Section(last, listed);
  }

  /** A text is listed for one of the fields exactly when it tags a gained value of that field. */
  lemma {:induction false} GainedSpec(from: Option<Governance>, to: Option<Governance>, fields: seq<string>, f: string, v: string)
    requires ColonFree(f) && forall g :: g in fields ==> ColonFree(g)
    ensures Tag(f, v) in Gained(from, to, fields) <==> f in fields && v in Values(to, f) - Values(from, f)
  {
    if fields != [] {
      var init, last := fields[..|fields| - 1], fields[|fields| - 1];
      assert fields == init + [last];
      GainedSpec(from, to, init, f, v);
      var listed := Listing(Values(to, last) - Values(from, last));
      assert v in listed <==> v in Values(to, last) - Values(from, last);
      if Tag(f, v) in Tagged(last, listed) {
        var i :| 0 <= i < |listed| && Tagged(last, listed)[i] == Tag(f, v);
        TagDecodes(last, listed[i], f, v);
      }
      if f == last && v in listed {
        var i :| 0 <= i < |listed| && listed[i] == v;
        assert Tagged(last, listed)[i] == Tag(f, v);
      }
    }
  }

  lemma DiffSpec(previous: Option<Governance>, candidate: Option<Governance>, f: string, v: string)
    requires IsReviewed(f)
    ensures Tag(f, v) in Added(previous, candidate) <==> v in Values(candidate, f) && v !in Values(previous, f)
    ensures Tag(f, v) in Removed(previous, candidate) <==> v in Values(previous, f) && v !in Values(candidate, f)
  {
    FieldsAreColonFree();
    GainedSpec(previous, candidate, PERMISSION_FIELDS, f, v);
    GainedSpec(candidate, previous, PERMISSION_FIELDS, f, v);
    var r := ChangeNote("risk", Risk(previous), Risk(candidate));
    var c := ChangeNote("confirmation", Confirmation(previous), Confirmation(candidate));
    if r != [] && r[0] == Tag(f, v) {
      TagDecodes("risk", Show(Risk(previous)) + "->" + Show(Risk(candidate)), f, v);
    }
    if c != [] && c[0] == Tag(f, v) {
      TagDecodes("confirmation", Show(Confirmation(previous)) + "->" + Show(Confirmation(candidate)), f, v);
    }
  }

  /** Applying the listed additions and removals to the old values gives the new ones. */
  lemma DiffApplies(previous: Option<Governance>, candidate: Option<Governance>, f: string)
    requires IsReviewed(f)
    ensures var kept := set v | v in Values(previous, f) && Tag(f, v) !in Removed(previous, candidate);
            var entered := set v | v in Values(candidate, f) && Tag(f, v) in Added(previous, candidate);
            kept + entered == Values(candidate, f)
    ensures forall v :: Tag(f, v) in Added(previous, candidate) ==> v in Values(candidate, f)
  {
    forall v ensures Tag(f, v) in Added(previous, candidate) <==> v in Values(candidate, f) && v !in Values(previous, f) {
      DiffSpec(previous, candidate, f, v);
    }
    forall v ensures Tag(f, v) in Removed(previous, candidate) <==> v in Values(previous, f) && v !in Values(candidate, f) {
      DiffSpec(previous, candidate, f, v);
    }
  }

  // ---------------------------------------------------------------- require_permission_review

  /** Nothing is gained in any field and neither scalar changes. */
  ghost predicate OnlyShrinks(previous: Option<Governance>, candidate: Option<Governance>) {
    && (forall f :: IsReviewed(f) ==> Values(candidate, f) <= Values(previous, f))
    && Risk(candidate) == Risk(previous)
    && Confirmation(candidate) == Confirmation(previous)
  }

  ghost predicate Passes(previous: Option<Governance>, candidate: Option<Governance>, approved: bool) {
    approved || OnlyShrinks(previous, candidate)
  }

  lemma {:induction false} GainedIsEmpty(from: Option<Governance>, to: Option<Governance>, fields: seq<string>)
    ensures Gained(from, to, fields) == [] <==> forall f :: f in fields ==> Values(to, f) <= Values(from, f)
  {
    if fields != [] {
      var init, last := fields[..|fields| - 1], fields[|fields| - 1];
      assert fields == init + [last];
      GainedIsEmpty(from, to, init);
      var gone := Values(to, last) - Values(from, last);
      assert Listing(gone) == [] <==> gone == {} by {
        if Listing(gone) != [] {
          assert Listing(gone)[0] in gone;
        }
        if gone != {} {
          var v :| v in gone;
          assert v in Listing(gone);
        }
      }
      assert gone == {} ==> Values(to, last) <= Values(from, last) by {
        forall v | gone == {} && v in Values(to, last) ensures v in Values(from, last) {
          assert v !in gone;
        }
      }
      assert last in fields;
      assert forall f :: f in fields <==> f in init || f == last;
    }
  }

  /** The list of additions is empty exactly when the update only shrinks permissions. */
  lemma AddedIsEmpty(previous: Option<Governance>, candidate: Option<Governance>)
    ensures Added(previous, candidate) == [] <==> OnlyShrinks(previous, candidate)
  {
    GainedIsEmpty(previous, candidate, PERMISSION_FIELDS);
  }

  // ---------------------------------------------------------------- chains of updates

  ghost predicate AcceptedChain(versions: seq<Option<Governance>>, approvals: seq<bool>) {
    && |versions| == |approvals| + 1
    && forall i :: 0 <= i < |approvals| ==> Passes(versions[i], versions[i + 1], approvals[i])
  }

  /** Every permission gained over a chain entered at a step that was approved. */
  lemma {:induction false} EveryGainWasApproved(versions: seq<Option<Governance>>, approvals: seq<bool>, f: string, v: string)
    requires AcceptedChain(versions, approvals) && IsReviewed(f)
    requires v in Values(versions[|approvals|], f) && v !in Values(versions[0], f)
    ensures exists i :: 0 <= i < |approvals| && approvals[i] && v !in Values(versions[i], f) && v in Values(versions[i + 1], f)
    decreases |approvals|
  {
    var n := |approvals| - 1;
    if v !in Values(versions[n], f) {
      assert Passes(versions[n], versions[n + 1], approvals[n]);
    } else {
      EveryGainWasApproved(versions[..n + 1], approvals[..n], f, v);
      var i :| 0 <= i < n && approvals[..n][i] && v !in Values(versions[..n + 1][i], f) && v in Values(versions[..n + 1][i + 1], f);
      assert approvals[i] && v !in Values(versions[i], f) && v in Values(versions[i + 1], f);
    }
  }

  /** Every change of risk or confirmation over a chain happened at a step that was approved. */
  lemma {:induction false} EveryScalarChangeWasApproved(versions: seq<Option<Governance>>, approvals: seq<bool>)
    requires AcceptedChain(versions, approvals)
    requires Risk(versions[|approvals|]) != Risk(versions[0]) || Confirmation(versions[|approvals|]) != Confirmation(versions[0])
    ensures exists i :: 0 <= i < |approvals| && approvals[i] &&
              (Risk(versions[i]) != Risk(versions[i + 1]) || Confirmation(versions[i]) != Confirmation(versions[i + 1]))
    decreases |approvals|
  {
    var n := |approvals| - 1;
    if Risk(versions[n]) != Risk(versions[n + 1]) || Confirmation(versions[n]) != Confirmation(versions[n + 1]) {
      assert Passes(versions[n], versions[n + 1], approvals[n]);
    } else {
      EveryScalarChangeWasApproved(versions[..n + 1], approvals[..n]);
      var i :| 0 <= i < n && approvals[..n][i] &&
        (Risk(versions[..n + 1][i]) != Risk(versions[..n + 1][i + 1])
         || Confirmation(versions[..n + 1][i]) != Confirmation(versions[..n + 1][i + 1]));
      assert approvals[i] && (Risk(versions[i]) != Risk(versions[i + 1])
                              || Confirmation(versions[i]) != Confirmation(versions[i + 1]));
    }
  }

  /** Without approvals a chain only shrinks. */
  lemma UnapprovedChainShrinks(versions: seq<Option<Governance>>, approvals: seq<bool>)
    requires AcceptedChain(versions, approvals)
    requires forall i :: 0 <= i < |approvals| ==> !approvals[i]
    ensures OnlyShrinks(versions[0], versions[|approvals|])
  {
    forall f, v | IsReviewed(f) && v in Values(versions[|approvals|], f) ensures v in Values(versions[0], f) {
      if v !in Values(versions[0], f) {
        EveryGainWasApproved(versions, approvals, f, v);
      }
    }
    if Risk(versions[|approvals|]) != Risk(versions[0]) || Confirmation(versions[|approvals|]) != Confirmation(versions[0]) {
      EveryScalarChangeWasApproved(versions, approvals);
    }
  }
}
