/** Session whitelists and stream leases (service/recognition.py, SessionState and SessionRegistry). */
module Registry {
  import opened Detection
  import opened Recognition

  // ---- One whitelist as a value ----------------------------------------------------------------

  datatype Whitelist = Whitelist(entries: seq<Entry>, version: nat)

  const EMPTY := Whitelist([], 0)

  /** Identifier and vector validation. */
  datatype Rules = Rules(validId: string -> bool, normalize: Embedding -> Option<Embedding>)

  predicate HasId(entries: seq<Entry>, id: string) {
    exists i :: 0 <= i < |entries| && entries[i].id == id
  }

  ghost predicate DistinctIds(entries: seq<Entry>) {
    forall i, j :: 0 <= i < j < |entries| ==> entries[i].id != entries[j].id
  }

  /** SessionState.append with the freshly generated ID `id`. */
  function AppendTo(w: Whitelist, rules: Rules, max: nat, id: string, embedding: Embedding): Result<Whitelist> {
    match rules.normalize(embedding)
    case None => Err("ValueError")
    case Some(e) =>
      if |w.entries| >= max then Err("WhitelistLimitError")
      else Ok(Whitelist(w.entries + [Entry(id, e)], w.version + 1))
  }

  /** dict[id] = entry: a known key keeps its place and takes the new value. */
  function Put(entries: seq<Entry>, entry: Entry): seq<Entry> {
    if entries == [] then [entry]
    else if entries[0].id == entry.id then [entry] + entries[1..]
    else [entries[0]] + Put(entries[1..], entry)
  }

  /** The validated incoming entries as an insertion-ordered dictionary; fails on the first invalid one. */
  function Incoming(rules: Rules, given: seq<Entry>): Result<seq<Entry>> {
    if given == [] then Ok([])
    else
      var last := given[|given| - 1];
      match Incoming(rules, given[..|given| - 1])
      case Err(message) => Err(message)
      case Ok(entries) =>
        if !rules.validId(last.id) || rules.normalize(last.embedding).None? then Err("ValueError")
        else Ok(Put(entries, Entry(last.id, rules.normalize(last.embedding).value)))
  }

  /** The entries whose ID is not present yet. */
  function Absent(present: seq<Entry>, incoming: seq<Entry>): seq<Entry> {
    if incoming == [] then []
    else if HasId(present, incoming[0].id) then Absent(present, incoming[1..])
    else [incoming[0]] + Absent(present, incoming[1..])
  }

  function ImportInto(w: Whitelist, rules: Rules, max: nat, given: seq<Entry>): Result<Whitelist> {
    match Incoming(rules, given)
    case Err(message) => Err(message)
    case Ok(incoming) =>
      var added := Absent(w.entries, incoming);
      if |w.entries| + |added| > max then Err("WhitelistLimitError")
      else if added == [] then Ok(w)
      else Ok(Whitelist(w.entries + added, w.version + 1))
  }

  function Others(entries: seq<Entry>, id: string): seq<Entry> {
    if entries == [] then [] else if entries[0].id == id then Others(entries[1..], id)
    else [entries[0]] + Others(entries[1..], id)
  }

  function DeleteFrom(w: Whitelist, id: string): Result<Whitelist> {
    var remaining := Others(w.entries, id);
    if |remaining| == |w.entries| then Err("WhitelistEntryNotFoundError") else Ok(Whitelist(remaining, w.version + 1))
  }

  // ---- What the three changes guarantee ----------------------------------------------------------

  lemma PutIds(entries: seq<Entry>, entry: Entry)
    requires DistinctIds(entries)
    ensures DistinctIds(Put(entries, entry))
    ensures forall id :: HasId(Put(entries, entry), id) <==> HasId(entries, id) || id == entry.id
    ensures forall e :: e in Put(entries, entry) ==> e in entries || e == entry
  {
    if entries != [] {
      var rest := entries[1..];
      PutIds(rest, entry);
      forall id ensures HasId(entries, id) <==> entries[0].id == id || HasId(rest, id) {
        HasIdCons(entries, id);
      }
      var all := Put(entries, entry);
      forall id ensures HasId(all, id) <==> all[0].id == id || HasId(all[1..], id) {
        HasIdCons(all, id);
      }
      assert all[1..] == if entries[0].id == entry.id then rest else Put(rest, entry);
      assert !HasId(rest, entries[0].id) by { HeadIsNew(entries); }
      DistinctCons(all);
    } else {
      assert [entry][0].id == entry.id;
    }
  }

  lemma HasIdCons(entries: seq<Entry>, id: string)
    requires entries != []
    ensures HasId(entries, id) <==> entries[0].id == id || HasId(entries[1..], id)
  {
    if HasId(entries[1..], id) {
      var i :| 0 <= i < |entries[1..]| && entries[1..][i].id == id;
      assert entries[i + 1].id == id;
    }
    if i :| 0 <= i < |entries| && entries[i].id == id {
      if i > 0 {
        assert entries[1..][i - 1].id == id;
      }
    }
  }

  lemma HeadIsNew(entries: seq<Entry>)
    requires entries != [] && DistinctIds(entries)
    ensures !HasId(entries[1..], entries[0].id)
  {
  }

  lemma DistinctCons(entries: seq<Entry>)
    requires entries != [] && DistinctIds(entries[1..]) && !HasId(entries[1..], entries[0].id)
    ensures DistinctIds(entries)
  {
    forall i, j | 0 <= i < j < |entries| ensures entries[i].id != entries[j].id {
      assert entries[j] == entries[1..][j - 1];
      if i > 0 {
        assert entries[i] == entries[1..][i - 1];
      }
    }
  }

  lemma IncomingIds(rules: Rules, given: seq<Entry>)
    requires Incoming(rules, given).Ok?
    ensures DistinctIds(Incoming(rules, given).value)
    ensures forall id :: HasId(Incoming(rules, given).value, id) <==> HasId(given, id)
  {
    if given != [] {
      var init, last := given[..|given| - 1], given[|given| - 1];
      IncomingIds(rules, init);
      var before := Incoming(rules, init).value;
      PutIds(before, Entry(last.id, rules.normalize(last.embedding).value));
      hide Incoming, Put;
      forall id ensures HasId(given, id) <==> HasId(init, id) || id == last.id {
        HasIdLast(given, id);
      }
    }
  }

  lemma HasIdLast(entries: seq<Entry>, id: string)
    requires entries != []
    ensures HasId(entries, id) <==> HasId(entries[..|entries| - 1], id) || entries[|entries| - 1].id == id
  {
    var init := entries[..|entries| - 1];
    if i :| 0 <= i < |entries| && entries[i].id == id {
      assert i < |init| ==> init[i].id == id;
    }
    if i :| 0 <= i < |init| && init[i].id == id {
      assert entries[i].id == id;
    }
  }

  lemma AbsentIs(present: seq<Entry>, incoming: seq<Entry>)
    requires DistinctIds(incoming)
    ensures var added := Absent(present, incoming);
            && DistinctIds(added)
            && forall id :: HasId(added, id) <==> HasId(incoming, id) && !HasId(present, id)
  {
    if incoming != [] {
      var rest := incoming[1..];
      AbsentIs(present, rest);
      HeadIsNew(incoming);
      var added := Absent(present, incoming);
      forall id ensures HasId(incoming, id) <==> incoming[0].id == id || HasId(rest, id) {
        HasIdCons(incoming, id);
      }
      if !HasId(present, incoming[0].id) {
        assert added[0] == incoming[0] && added[1..] == Absent(present, rest);
        forall id ensures HasId(added, id) <==> added[0].id == id || HasId(added[1..], id) {
          HasIdCons(added, id);
        }
        DistinctCons(added);
      }
    }
  }

  lemma HasIdAppend(a: seq<Entry>, b: seq<Entry>, id: string)
    ensures HasId(a + b, id) <==> HasId(a, id) || HasId(b, id)
  {
    if i :| 0 <= i < |a + b| && (a + b)[i].id == id {
      if i < |a| { assert a[i].id == id; } else { assert b[i - |a|].id == id; }
    }
    if i :| 0 <= i < |a| && a[i].id == id { assert (a + b)[i].id == id; }
    if i :| 0 <= i < |b| && b[i].id == id { assert (a + b)[|a| + i].id == id; }
  }

  lemma DistinctAppend(a: seq<Entry>, b: seq<Entry>)
    requires DistinctIds(a) && DistinctIds(b) && forall id :: !(HasId(a, id) && HasId(b, id))
    ensures DistinctIds(a + b)
  {
    forall i, j | 0 <= i < j < |a + b| ensures (a + b)[i].id != (a + b)[j].id {
      if i < |a| <= j {
        assert HasId(a, a[i].id);
        assert HasId(b, b[j - |a|].id);
      }
    }
  }

  /** Enrolling puts the new face last, with its vector normalised, behind the unchanged list; it fails for an
      unusable vector, and otherwise exactly when the list is full. */
  lemma AppendExactly(w: Whitelist, rules: Rules, max: nat, id: string, embedding: Embedding)
    ensures var r := AppendTo(w, rules, max, id, embedding);
            && (r == Err("ValueError") <==> rules.normalize(embedding).None?)
            && (r == Err("WhitelistLimitError") <==> rules.normalize(embedding).Some? && max <= |w.entries|)
            && (r.Ok? ==>
                  var after := r.value;
                  && |after.entries| == |w.entries| + 1 <= max && after.version == w.version + 1
                  && (forall i :: 0 <= i < |w.entries| ==> after.entries[i] == w.entries[i])
                  && after.entries[|w.entries|].id == id
                  && Some(after.entries[|w.entries|].embedding) == rules.normalize(embedding))
            && (r.Ok? || r == Err("ValueError") || r == Err("WhitelistLimitError"))
  {
    assert "ValueError"[0] != "WhitelistLimitError"[0];
  }

  /** Deleting what was just enrolled under a fresh ID gives the old list back, two versions on. */
  lemma DeleteUndoesAppend(w: Whitelist, rules: Rules, max: nat, id: string, embedding: Embedding)
    requires AppendTo(w, rules, max, id, embedding).Ok? && !HasId(w.entries, id)
    ensures DeleteFrom(AppendTo(w, rules, max, id, embedding).value, id) == Ok(Whitelist(w.entries, w.version + 2))
  {
    OthersOfAppended(w.entries, AppendTo(w, rules, max, id, embedding).value.entries[|w.entries|]);
  }

  lemma {:induction false} OthersOfAppended(entries: seq<Entry>, last: Entry)
    requires !HasId(entries, last.id)
    ensures Others(entries + [last], last.id) == entries
  {
    if entries == [] {
      assert [last][1..] == [];
      assert Others([last], last.id) == Others([], last.id);
    } else {
      HasIdCons(entries, last.id);
      assert (entries + [last])[1..] == entries[1..] + [last];
      OthersOfAppended(entries[1..], last);
    }
  }

  /** The version tells lists apart: a change that succeeds raises it exactly when it changed the list. */
  lemma VersionTracksEntries(w: Whitelist, rules: Rules, max: nat, id: string, embedding: Embedding, given: seq<Entry>)
    ensures forall r: Result<Whitelist> ::
              r.Ok? && (r == AppendTo(w, rules, max, id, embedding) || r == ImportInto(w, rules, max, given)
                        || r == DeleteFrom(w, id)) ==>
                r.value.version == if r.value.entries == w.entries then w.version else w.version + 1
  {
  }

  // ---- What an import takes from a list that repeats IDs -----------------------------------------

  function FirstAt(entries: seq<Entry>, id: string): (k: nat)
    requires HasId(entries, id)
    ensures k < |entries|
  {
    HasIdCons(entries, id);
    if entries[0].id == id then 0 else 1 + FirstAt(entries[1..], id)
  }

  lemma FirstAtAppend(a: seq<Entry>, b: seq<Entry>, id: string)
    requires HasId(a + b, id)
    ensures HasId(a, id) ==> FirstAt(a + b, id) == FirstAt(a, id)
    ensures !HasId(a, id) ==> HasId(b, id) && FirstAt(a + b, id) == |a| + FirstAt(b, id)
  {
    HasIdAppend(a, b, id);
    if a == [] {
      assert a + b == b;
    } else {
      HasIdCons(a, id);
      HasIdCons(a + b, id);
      assert (a + b)[1..] == a[1..] + b;
      if a[0].id != id {
        FirstAtAppend(a[1..], b, id);
      }
    }
  }

  /** `e` carries the vector of the last given entry with its ID. */
  ghost predicate LastGiven(rules: Rules, given: seq<Entry>, e: Entry) {
    exists j :: LastGivenAt(rules, given, e, j)
  }

  ghost predicate LastGivenAt(rules: Rules, given: seq<Entry>, e: Entry, j: int) {
    && 0 <= j < |given| && given[j].id == e.id && rules.normalize(given[j].embedding) == Some(e.embedding)
    && forall k :: j < k < |given| ==> given[k].id != e.id
  }

  /** The entries stand in the order in which their IDs first appear among the given ones, each with the
      vector given last. */
  ghost predicate AsGiven(rules: Rules, given: seq<Entry>, entries: seq<Entry>) {
    && (forall i :: 0 <= i < |entries| ==>
          HasId(given, entries[i].id) && rules.validId(entries[i].id) && LastGiven(rules, given, entries[i]))
    && (forall i, j :: 0 <= i < j < |entries| ==> FirstAt(given, entries[i].id) < FirstAt(given, entries[j].id))
  }

  /** A known ID keeps its place and takes the new entry; all others stay as they are. */
  lemma PutKnown(entries: seq<Entry>, entry: Entry)
    requires DistinctIds(entries) && HasId(entries, entry.id)
    ensures |Put(entries, entry)| == |entries|
    ensures forall i :: 0 <= i < |entries| ==>
            Put(entries, entry)[i] == if entries[i].id == entry.id then entry else entries[i]
  {
    HasIdCons(entries, entry.id);
    HeadIsNew(entries);
    if entries[0].id == entry.id {
      forall i | 0 < i < |entries| ensures entries[i].id != entry.id {
        assert entries[1..][i - 1] == entries[i];
      }
    } else {
      PutKnown(entries[1..], entry);
    }
  }

  /** An entry that was last given before stays so when another ID is given after it. */
  lemma StillLastGiven(rules: Rules, init: seq<Entry>, last: Entry, e: Entry)
    requires LastGiven(rules, init, e) && e.id != last.id
    ensures LastGiven(rules, init + [last], e)
  {
    var j :| LastGivenAt(rules, init, e, j);
    assert LastGivenAt(rules, init + [last], e, j);
  }

  lemma MoreGivenEntry(rules: Rules, init: seq<Entry>, last: Entry, e: Entry)
    requires HasId(init, e.id) && rules.validId(e.id) && LastGiven(rules, init, e) && e.id != last.id
    ensures HasId(init + [last], e.id) && LastGiven(rules, init + [last], e)
  {
    HasIdAppend(init, [last], e.id);
    StillLastGiven(rules, init, last, e);
  }

  lemma NewGivenEntry(rules: Rules, init: seq<Entry>, last: Entry)
    requires rules.normalize(last.embedding).Some?
    ensures HasId(init + [last], last.id)
    ensures LastGiven(rules, init + [last], Entry(last.id, rules.normalize(last.embedding).value))
  {
    assert (init + [last])[|init|].id == last.id;
    assert LastGivenAt(rules, init + [last], Entry(last.id, rules.normalize(last.embedding).value), |init|);
  }

  /** The updated dictionary lists the old IDs in their old order, then the new one if it is new. */
  lemma PutIdsInOrder(entries: seq<Entry>, entry: Entry)
    requires DistinctIds(entries)
    ensures |Put(entries, entry)| == |entries| + (if HasId(entries, entry.id) then 0 else 1)
    ensures forall i :: 0 <= i < |entries| ==>
              Put(entries, entry)[i] == if entries[i].id == entry.id then entry else entries[i]
    ensures !HasId(entries, entry.id) ==> Put(entries, entry)[|entries|] == entry
  {
    if HasId(entries, entry.id) { PutKnown(entries, entry); } else { PutNew(entries, entry); }
    hide Put;
  }

  lemma MoreGivenOrder(init: seq<Entry>, last: Entry, first: string, second: string)
    requires HasId(init, first) && (HasId(init, second) || second == last.id)
    requires HasId(init, second) ==> FirstAt(init, first) < FirstAt(init, second)
    ensures HasId(init + [last], first) && HasId(init + [last], second)
    ensures FirstAt(init + [last], first) < FirstAt(init + [last], second)
  {
    HasIdAppend(init, [last], first);
    HasIdAppend(init, [last], second);
    assert [last][0].id == last.id;
    FirstAtAppend(init, [last], first);
    FirstAtAppend(init, [last], second);
  }

  lemma OneMoreAsGiven(rules: Rules, init: seq<Entry>, last: Entry, before: seq<Entry>, after: seq<Entry>)
    requires DistinctIds(before) && AsGiven(rules, init, before)
    requires forall id :: HasId(before, id) <==> HasId(init, id)
    requires rules.validId(last.id) && rules.normalize(last.embedding).Some?
    requires after == Put(before, Entry(last.id, rules.normalize(last.embedding).value))
    ensures AsGiven(rules, init + [last], after)
  {
    hide Put, LastGiven, FirstAt, DistinctIds, HasId;
    var given, entry := init + [last], Entry(last.id, rules.normalize(last.embedding).value);
    PutIdsInOrder(before, entry);
    NewGivenEntry(rules, init, last);
    forall i | 0 <= i < |after|
      ensures HasId(given, after[i].id) && rules.validId(after[i].id) && LastGiven(rules, given, after[i])
    {
      if i < |before| && before[i].id != last.id {
        MoreGivenEntry(rules, init, last, before[i]);
      }
    }
    forall i, j | 0 <= i < j < |after| ensures FirstAt(given, after[i].id) < FirstAt(given, after[j].id) {
      MoreGivenOrder(init, last, before[i].id, after[j].id);
    }
  }

  lemma {:induction false} IncomingAsGiven(rules: Rules, given: seq<Entry>)
    requires Incoming(rules, given).Ok?
    ensures AsGiven(rules, given, Incoming(rules, given).value)
  {
    if given != [] {
      var init, last := given[..|given| - 1], given[|given| - 1];
      IncomingAsGiven(rules, init);
      IncomingIds(rules, init);
      var before, after := Incoming(rules, init).value, Incoming(rules, given).value;
      assert init + [last] == given;
      hide AsGiven, DistinctIds, Incoming, Put;
      OneMoreAsGiven(rules, init, last, before, after);
    }
  }

  lemma AsGivenCons(rules: Rules, given: seq<Entry>, head: Entry, tail: seq<Entry>)
    requires AsGiven(rules, given, tail) && HasId(given, head.id) && rules.validId(head.id)
             && LastGiven(rules, given, head)
    requires forall j :: 0 <= j < |tail| ==> FirstAt(given, head.id) < FirstAt(given, tail[j].id)
    ensures AsGiven(rules, given, [head] + tail)
  {
    hide LastGiven, FirstAt, HasId;
    var all := [head] + tail;
    forall i | 0 <= i < |all|
      ensures HasId(given, all[i].id) && rules.validId(all[i].id) && LastGiven(rules, given, all[i])
    {
      assert i > 0 ==> all[i] == tail[i - 1];
    }
    forall i, j | 0 <= i < j < |all| ensures FirstAt(given, all[i].id) < FirstAt(given, all[j].id) {
      assert all[j] == tail[j - 1] && (i > 0 ==> all[i] == tail[i - 1]);
    }
  }

  lemma AsGivenTail(rules: Rules, given: seq<Entry>, entries: seq<Entry>)
    requires AsGiven(rules, given, entries) && entries != []
    ensures AsGiven(rules, given, entries[1..])
    ensures HasId(given, entries[0].id) && rules.validId(entries[0].id) && LastGiven(rules, given, entries[0])
    ensures forall e :: e in entries[1..] ==> HasId(given, e.id) && FirstAt(given, entries[0].id) < FirstAt(given, e.id)
  {
    hide LastGiven, FirstAt, HasId;
    assert forall i :: 0 <= i < |entries| - 1 ==> entries[1..][i] == entries[i + 1];
  }

  lemma {:induction false} AbsentAsGiven(rules: Rules, given: seq<Entry>, present: seq<Entry>, incoming: seq<Entry>)
    requires AsGiven(rules, given, incoming)
    ensures AsGiven(rules, given, Absent(present, incoming))
    ensures forall e :: e in Absent(present, incoming) ==> e in incoming
  {
    if incoming != [] {
      AsGivenTail(rules, given, incoming);
      AbsentAsGiven(rules, given, present, incoming[1..]);
      hide AsGiven, LastGiven, FirstAt;
      if !HasId(present, incoming[0].id) {
        AsGivenCons(rules, given, incoming[0], Absent(present, incoming[1..]));
      }
      hide HasId;
    }
  }

  /** An import keeps what was there first and in order, adds exactly the missing IDs, in the order of their
      first appearance and each with the vector given last, keeps IDs distinct, respects the limit, and
      raises the version exactly when it adds something. */
  lemma ImportMerges(w: Whitelist, rules: Rules, max: nat, given: seq<Entry>)
    requires DistinctIds(w.entries) && |w.entries| <= max && ImportInto(w, rules, max, given).Ok?
    ensures var after := ImportInto(w, rules, max, given).value;
            && w.entries <= after.entries && |after.entries| <= max && DistinctIds(after.entries)
            && (forall id :: HasId(after.entries, id) <==> HasId(w.entries, id) || HasId(given, id))
            && AsGiven(rules, given, after.entries[|w.entries|..])
            && after.version == w.version + (if after.entries == w.entries then 0 else 1)
  {
    IncomingIds(rules, given);
    IncomingAsGiven(rules, given);
    var incoming := Incoming(rules, given).value;
    AbsentIs(w.entries, incoming);
    AbsentAsGiven(rules, given, w.entries, incoming);
    hide Incoming, Absent, AsGiven;
    var added := Absent(w.entries, incoming);
    DistinctAppend(w.entries, added);
    hide DistinctIds;
    forall id ensures HasId(w.entries + added, id) <==> HasId(w.entries, id) || HasId(added, id) {
      HasIdAppend(w.entries, added, id);
    }
    assert w.entries + [] == w.entries && (w.entries + added)[|w.entries|..] == added;
  }

  lemma NothingAbsent(present: seq<Entry>, incoming: seq<Entry>)
    requires forall id :: HasId(incoming, id) ==> HasId(present, id)
    ensures Absent(present, incoming) == []
  {
    if incoming != [] {
      assert HasId(incoming, incoming[0].id);
      forall id | HasId(incoming[1..], id) ensures HasId(present, id) {
        HasIdCons(incoming, id);
      }
      NothingAbsent(present, incoming[1..]);
    }
  }

  /** Importing the same entries again changes nothing. */
  lemma ImportIsIdempotent(w: Whitelist, rules: Rules, max: nat, given: seq<Entry>)
    requires DistinctIds(w.entries) && |w.entries| <= max && ImportInto(w, rules, max, given).Ok?
    ensures var after := ImportInto(w, rules, max, given).value;
            ImportInto(after, rules, max, given) == Ok(after)
  {
    var after := ImportInto(w, rules, max, given).value;
    ImportMerges(w, rules, max, given);
    IncomingIds(rules, given);
    var incoming := Incoming(rules, given).value;
    NothingAbsent(after.entries, incoming);
  }

  lemma PutNew(entries: seq<Entry>, entry: Entry)
    requires !HasId(entries, entry.id)
    ensures Put(entries, entry) == entries + [entry]
  {
    if entries != [] {
      HasIdCons(entries, entry.id);
      PutNew(entries[1..], entry);
      assert entries == [entries[0]] + entries[1..];
    }
  }

  lemma AllAbsent(incoming: seq<Entry>)
    ensures Absent([], incoming) == incoming
  {
    if incoming != [] {
      AllAbsent(incoming[1..]);
    }
  }

  // ---- Exporting and importing between workers ---------------------------------------------------

  /** Normalising a normalised vector leaves it alone. */
  ghost predicate Idempotent(rules: Rules) {
    forall e {:trigger rules.normalize(e)} :: rules.normalize(e).Some? ==>
      rules.normalize(rules.normalize(e).value) == rules.normalize(e)
  }

  /** Every entry has a valid ID and a normalised vector. */
  ghost predicate Stored(rules: Rules, entries: seq<Entry>) {
    forall i :: 0 <= i < |entries| ==>
      rules.validId(entries[i].id) && rules.normalize(entries[i].embedding) == Some(entries[i].embedding)
  }

  /** Exported entries come back as they are: IDs are valid and vectors already normalised. */
  lemma IncomingOfStored(rules: Rules, entries: seq<Entry>)
    requires DistinctIds(entries) && Stored(rules, entries)
    ensures Incoming(rules, entries) == Ok(entries)
  {
    if entries != [] {
      var init, last := entries[..|entries| - 1], entries[|entries| - 1];
      IncomingOfStored(rules, init);
      assert !HasId(init, last.id);
      PutNew(init, last);
      hide Put, HasId;
      assert init + [last] == entries && last == Entry(last.id, last.embedding);
    }
  }

  lemma AppendKeepsStored(w: Whitelist, rules: Rules, max: nat, id: string, embedding: Embedding)
    requires Idempotent(rules) && Stored(rules, w.entries) && rules.validId(id)
             && AppendTo(w, rules, max, id, embedding).Ok?
    ensures Stored(rules, AppendTo(w, rules, max, id, embedding).value.entries)
  {
  }

  lemma ImportKeepsStored(w: Whitelist, rules: Rules, max: nat, given: seq<Entry>)
    requires Idempotent(rules) && Stored(rules, w.entries)
    requires DistinctIds(w.entries) && |w.entries| <= max && ImportInto(w, rules, max, given).Ok?
    ensures Stored(rules, ImportInto(w, rules, max, given).value.entries)
  {
    ImportMerges(w, rules, max, given);
    var after := ImportInto(w, rules, max, given).value;
    hide ImportInto, FirstAt;
    var added := after.entries[|w.entries|..];
    forall i | |w.entries| <= i < |after.entries|
      ensures rules.validId(after.entries[i].id)
              && rules.normalize(after.entries[i].embedding) == Some(after.entries[i].embedding)
    {
      assert added[i - |w.entries|] == after.entries[i];
      var j :| LastGivenAt(rules, given, after.entries[i], j);
    }
    assert forall i :: 0 <= i < |w.entries| ==> after.entries[i] == w.entries[i];
  }

  lemma DeleteKeepsStored(w: Whitelist, rules: Rules, id: string)
    requires Stored(rules, w.entries) && DeleteFrom(w, id).Ok?
    ensures Stored(rules, DeleteFrom(w, id).value.entries)
  {
    OthersAre(w.entries, id);
    var after := DeleteFrom(w, id).value;
    forall i | 0 <= i < |after.entries|
      ensures rules.validId(after.entries[i].id)
              && rules.normalize(after.entries[i].embedding) == Some(after.entries[i].embedding)
    {
      assert after.entries[i] in w.entries;
    }
  }

  /** What ExportWhitelist returns: the entries, and the fingerprint of the model they belong to. */
  datatype Export = Export(model: string, entries: seq<Entry>, version: nat)

  /** The whitelist of a session; an absent one is empty. */
  ghost function ListOf(lists: map<string, Whitelist>, id: string): Whitelist {
    if id in lists then lists[id] else EMPTY
  }

  /** ExportWhitelist on a worker whose loaded recognition model is `model`; "" when none is. */
  ghost function Exported(lists: map<string, Whitelist>, rules: Rules, model: string, id: string): Result<Export> {
    if !rules.validId(id) then Err("INVALID_ARGUMENT")
    else if model == "" then Err("FAILED_PRECONDITION")
    else Ok(Export(model, ListOf(lists, id).entries, ListOf(lists, id).version))
  }

  /** ImportWhitelist: the request must come from the loaded model. */
  ghost function Imported(lists: map<string, Whitelist>, rules: Rules, maxSessions: nat, maxEntries: nat,
                          model: string, id: string, request: Export): Result<Whitelist>
  {
    if !rules.validId(id) then Err("INVALID_ARGUMENT")
    else if model == "" || request.model != model then Err("FAILED_PRECONDITION")
    else
      match Opened(lists, rules, maxSessions, id)
      case Err(message) => Err(message)
      case Ok(before) => ImportInto(before, rules, maxEntries, request.entries)
  }

  lemma StoredRoundTrip(w: Whitelist, rules: Rules, max: nat)
    requires DistinctIds(w.entries) && Stored(rules, w.entries)
    ensures ImportInto(EMPTY, rules, max, w.entries) ==
            if |w.entries| > max then Err("WhitelistLimitError")
            else Ok(Whitelist(w.entries, if w.entries == [] then 0 else 1))
  {
    hide Incoming, Absent, Stored, DistinctIds;
    IncomingOfStored(rules, w.entries);
    AllAbsent(w.entries);
    assert [] + w.entries == w.entries;
  }

  /** Export from one worker and import into an absent session of another: it succeeds exactly when the other
      worker has the same model loaded and room, and then every ID, every vector and the order are kept. */
  lemma ExportImportRoundTrip(from: map<string, Whitelist>, to: map<string, Whitelist>, rules: Rules, maxSessions: nat,
                              maxEntries: nat, mine: string, theirs: string, source: string, target: string)
    requires rules.validId(source) && rules.validId(target) && mine != "" && target !in to
    requires var w := ListOf(from, source); DistinctIds(w.entries) && Stored(rules, w.entries)
    ensures var w := ListOf(from, source);
            && Exported(from, rules, mine, source) == Ok(Export(mine, w.entries, w.version))
            && var r := Imported(to, rules, maxSessions, maxEntries, theirs, target,
                                 Export(mine, w.entries, w.version));
               && (r.Ok? <==> theirs == mine && |to| < maxSessions && |w.entries| <= maxEntries)
               && (r.Ok? ==> r.value == Whitelist(w.entries, if w.entries == [] then 0 else 1))
  {
    StoredRoundTrip(ListOf(from, source), rules, maxEntries);
    hide ImportInto, Stored, DistinctIds;
  }

  lemma OthersAre(entries: seq<Entry>, id: string)
    ensures forall e :: e in Others(entries, id) <==> e in entries && e.id != id
    ensures |Others(entries, id)| <= |entries|
    ensures |Others(entries, id)| == |entries| <==> !HasId(entries, id)
  {
    if entries != [] {
      OthersAre(entries[1..], id);
      HasIdCons(entries, id);
    }
  }

  lemma OthersLack(entries: seq<Entry>, id: string, x: string)
    requires !HasId(entries, x)
    ensures !HasId(Others(entries, id), x)
  {
    if entries != [] {
      HasIdCons(entries, x);
      OthersLack(entries[1..], id, x);
      if entries[0].id != id {
        HasIdCons(Others(entries, id), x);
      }
    }
  }

  lemma OthersDistinct(entries: seq<Entry>, id: string)
    requires DistinctIds(entries)
    ensures DistinctIds(Others(entries, id))
  {
    if entries != [] {
      OthersDistinct(entries[1..], id);
      OthersAre(entries[1..], id);
      HeadIsNew(entries);
      var rest := Others(entries[1..], id);
      if entries[0].id != id {
        var all := Others(entries, id);
        assert all[1..] == rest;
        OthersLack(entries[1..], id, entries[0].id);
        DistinctCons(all);
      }
    }
  }

  /** A deletion succeeds exactly for a listed ID, removes just that ID and raises the version. */
  lemma DeleteRemoves(w: Whitelist, id: string)
    requires DistinctIds(w.entries)
    ensures DeleteFrom(w, id).Ok? <==> HasId(w.entries, id)
    ensures DeleteFrom(w, id).Ok? ==>
              var after := DeleteFrom(w, id).value;
              && after.version == w.version + 1 && |after.entries| < |w.entries| && DistinctIds(after.entries)
              && forall e :: e in after.entries <==> e in w.entries && e.id != id
  {
    OthersAre(w.entries, id);
    OthersDistinct(w.entries, id);
  }

  // ---- Sessions and leases -----------------------------------------------------------------------

  /** One session; its whitelist is replaced in place. */
  class SessionState {
    const id: string
    const max: nat
    var list: Whitelist

    constructor (id: string, max: nat, ghost rules: Rules)
      ensures this.id == id && this.max == max && list == EMPTY && Sound(rules) && forall x :: !HasId(list.entries, x)
    {
      this.id, this.max := id, max;
      list := EMPTY;
    }

    ghost predicate Sound(rules: Rules)
      reads this
    {
      DistinctIds(list.entries) && |list.entries| <= max && Stored(rules, list.entries)
    }

    method Append(rules: Rules, entryId: string, embedding: Embedding) returns (r: Result<Whitelist>)
      requires Sound(rules) && Idempotent(rules) && rules.validId(entryId) && !HasId(list.entries, entryId)
      modifies this
      ensures Sound(rules) && r == AppendTo(old(list), rules, max, entryId, embedding)
      ensures list == if r.Ok? then r.value else old(list)
    {
      if rules.normalize(embedding).None? {
        return Err("ValueError");
      }
      if |list.entries| >= max {
        return Err("WhitelistLimitError");
      }
      AppendKeepsStored(list, rules, max, entryId, embedding);
      DistinctAppend(list.entries, [Entry(entryId, rules.normalize(embedding).value)]);
      list := Whitelist(list.entries + [Entry(entryId, rules.normalize(embedding).value)], list.version + 1);
      r := Ok(list);
    }

    method ImportEntries(rules: Rules, given: seq<Entry>) returns (r: Result<Whitelist>)
      requires Sound(rules) && Idempotent(rules)
      modifies this
      ensures Sound(rules) && r == ImportInto(old(list), rules, max, given)
      ensures list == if r.Ok? then r.value else old(list)
    {
      if ImportInto(list, rules, max, given).Ok? {
        ImportMerges(list, rules, max, given);
        ImportKeepsStored(list, rules, max, given);
      }
      var incoming: seq<Entry> := [];
      for k := 0 to |given|
        invariant Incoming(rules, given[..k]) == Ok(incoming)
      {
        assert given[..k + 1][..k] == given[..k];
        if !rules.validId(given[k].id) || rules.normalize(given[k].embedding).None? {
          IncomingFails(rules, given, k + 1);
          return Err("ValueError");
        }
        incoming := Put(incoming, Entry(given[k].id, rules.normalize(given[k].embedding).value));
      }
      assert given[..|given|] == given;
      var added := Absent(list.entries, incoming);
      if |list.entries| + |added| > max {
        return Err("WhitelistLimitError");
      }
      if added != [] {
        list := Whitelist(list.entries + added, list.version + 1);
      }
      r := Ok(list);
    }

    method DeleteEntry(entryId: string, ghost rules: Rules) returns (r: Result<Whitelist>)
      requires Sound(rules)
      modifies this
      ensures Sound(rules) && r == DeleteFrom(old(list), entryId)
      ensures list == if r.Ok? then r.value else old(list)
    {
      DeleteRemoves(list, entryId);
      if DeleteFrom(list, entryId).Ok? {
        DeleteKeepsStored(list, rules, entryId);
      }
      var remaining := Others(list.entries, entryId);
      if |remaining| == |list.entries| {
        return Err("WhitelistEntryNotFoundError");
      }
      list := Whitelist(remaining, list.version + 1);
      r := Ok(list);
    }
  }

  /** Once a prefix fails to validate, the whole import fails with the same error. */
  lemma IncomingFails(rules: Rules, given: seq<Entry>, k: nat)
    requires k <= |given| && Incoming(rules, given[..k]) == Err("ValueError")
    ensures Incoming(rules, given) == Err("ValueError")
    decreases |given| - k
  {
    if k < |given| {
      assert given[..k + 1][..k] == given[..k];
      IncomingFails(rules, given, k + 1);
    } else {
      assert given[..k] == given;
    }
  }

  /** What an operation that needs session `id` finds: a bad ID, a full table, or a whitelist. */
  ghost function Opened(lists: map<string, Whitelist>, rules: Rules, maxSessions: nat, id: string): Result<Whitelist> {
    if !rules.validId(id) then Err("ValueError")
    else if id in lists then Ok(lists[id])
    else if |lists| >= maxSessions then Err("SessionLimitError")
    else Ok(EMPTY)
  }

  /** Every count is the number of outstanding leases, and only listed sessions are leased. */
  ghost predicate Balanced(sessions: map<string, SessionState>, counts: map<string, nat>,
                           leases: multiset<SessionState>)
  {
    && counts.Keys == sessions.Keys
    && (forall id :: id in sessions ==> sessions[id].id == id && counts[id] == leases[sessions[id]])
    && (forall s :: s in leases ==> s.id in sessions && sessions[s.id] == s)
  }

  lemma BalancedAdd(sessions: map<string, SessionState>, counts: map<string, nat>, leases: multiset<SessionState>,
                    s: SessionState)
    requires Balanced(sessions, counts, leases) && s.id !in sessions
    ensures Balanced(sessions[s.id := s], counts[s.id := 0], leases)
  {
    assert s !in leases;
  }

  lemma BalancedAcquire(sessions: map<string, SessionState>, counts: map<string, nat>, leases: multiset<SessionState>,
                        id: string)
    requires Balanced(sessions, counts, leases) && id in sessions
    ensures Balanced(sessions, counts[id := counts[id] + 1], leases + multiset{sessions[id]})
  {
  }

  /** A listed session has a positive count exactly when a stream holds it; releasing keeps the balance. */
  lemma BalancedRelease(sessions: map<string, SessionState>, counts: map<string, nat>, leases: multiset<SessionState>,
                        s: SessionState)
    requires Balanced(sessions, counts, leases)
    ensures s in leases <==> s.id in sessions && sessions[s.id] == s && counts[s.id] >= 1
    ensures s in leases ==> Balanced(sessions, counts[s.id := counts[s.id] - 1], leases - multiset{s})
  {
  }

  lemma BalancedDelete(sessions: map<string, SessionState>, counts: map<string, nat>, leases: multiset<SessionState>,
                       id: string)
    requires Balanced(sessions, counts, leases) && id in sessions && counts[id] == 0
    ensures Balanced(sessions - {id}, counts - {id}, leases)
  {
    assert sessions[id] !in leases;
  }

  /** The session table. `leases` is what the streams hold: one entry per acquired, unreleased lease. */
  class SessionRegistry {
    const maxSessions: nat
    const maxEntries: nat
    const rules: Rules
    var sessions: map<string, SessionState>
    var counts: map<string, nat>
    ghost var leases: multiset<SessionState>

    ghost predicate Valid()
      reads this, sessions.Values
    {
      counts.Keys == sessions.Keys && Tabled() && Balanced(sessions, counts, leases) && Idempotent(rules)
    }

    /** Every listed session is sound, listed under its own valid ID, and there is room for it. */
    ghost predicate Tabled()
      reads this`sessions, sessions.Values
    {
      |sessions| <= maxSessions && forall id :: id in sessions ==> IsSession(id, sessions[id])
    }

    ghost predicate IsSession(id: string, s: SessionState)
      reads s
    {
      s.id == id && s.max == maxEntries && s.Sound(rules) && rules.validId(id)
    }

    /** Every session's whitelist. */
    ghost function Lists(): map<string, Whitelist>
      reads this`sessions, sessions.Values
    {
      map id | id in sessions :: sessions[id].list
    }

    constructor (maxSessions: nat, maxEntries: nat, rules: Rules)
      requires Idempotent(rules)
      ensures Valid() && Lists() == map[] && leases == multiset{}
      ensures this.maxSessions == maxSessions && this.maxEntries == maxEntries && this.rules == rules
    {
      this.maxSessions, this.maxEntries, this.rules := maxSessions, maxEntries, rules;
      sessions, counts, leases := map[], map[], multiset{};
    }

    lemma ListsHaveSameSize()
      ensures |Lists()| == |sessions| && Lists().Keys == sessions.Keys
    {
      assert Lists().Keys == sessions.Keys;
    }

    /** Only the whitelist of session `id` may have changed: the others keep theirs. */
    twostate lemma OneListChanged(id: string)
      requires old(Tabled()) && sessions == old(sessions) && id in sessions && IsSession(id, sessions[id])
      requires forall s :: s in sessions.Values && s != sessions[id] ==> unchanged(s)
      ensures Tabled() && Lists() == old(Lists())[id := sessions[id].list]
    {
      hide HasId, DistinctIds, Stored;
      forall x | x in sessions && x != id
        ensures IsSession(x, sessions[x]) && sessions[x].list == old(sessions[x].list)
      {
        assert sessions[x] in sessions.Values && old(IsSession(x, sessions[x]) && IsSession(id, sessions[id]));
      }
    }

    /** Puts a session object in the table; its count starts at zero. */
    method Register(session: SessionState)
      requires Valid() && session.id !in sessions && |sessions| < maxSessions && IsSession(session.id, session)
      modifies this`sessions, this`counts
      ensures Valid() && sessions == old(sessions)[session.id := session]
      ensures Lists() == old(Lists())[session.id := session.list]
    {
      hide Balanced, HasId, DistinctIds, Stored, Idempotent;
      BalancedAdd(sessions, counts, leases, session);
      sessions := sessions[session.id := session];
      counts := counts[session.id := 0];
    }

    /** A new session under a fresh valid ID, if the table has room. */
    method Create(id: string) returns (r: Result<SessionState>)
      requires Valid() && id !in sessions && rules.validId(id)
      modifies this`sessions, this`counts
      ensures Valid() && (r.Ok? <==> |old(sessions)| < maxSessions)
      ensures r.Ok? ==> fresh(r.value) && sessions == old(sessions)[id := r.value]
      ensures Lists() == if r.Ok? then old(Lists())[id := EMPTY] else old(Lists())
      ensures r.Err? ==> sessions == old(sessions)
    {
      hide Balanced, HasId, DistinctIds, Stored, Idempotent;
      if |sessions| >= maxSessions {
        return Err("SessionLimitError");
      }
      var session := new SessionState(id, maxEntries, rules);
      Register(session);
      r := Ok(session);
    }

    method GetOrCreate(id: string) returns (r: Result<SessionState>)
      requires Valid()
      modifies this`sessions, this`counts
      ensures Valid()
      ensures r.Err? <==> !rules.validId(id) || (id !in old(sessions) && |old(sessions)| >= maxSessions)
      ensures r.Err? ==> sessions == old(sessions)
      ensures r.Ok? ==> sessions == old(sessions)[id := r.value] && (id in old(sessions) || fresh(r.value))
      ensures Lists() == if r.Err? || id in old(sessions) then old(Lists()) else old(Lists())[id := EMPTY]
    {
      if !rules.validId(id) {
        return Err("ValueError");
      }
      if id in sessions {
        return Ok(sessions[id]);
      }
      r := Create(id);
    }

    /** A stream takes a lease on its session. */
    method AcquireStream(id: string) returns (r: Result<SessionState>)
      requires Valid()
      modifies this`sessions, this`counts, this`leases
      ensures Valid()
      ensures r.Ok? ==> sessions == old(sessions)[id := r.value] && leases == old(leases) + multiset{r.value}
      ensures r.Err? ==> leases == old(leases) && sessions == old(sessions)
      ensures Lists() == if r.Err? || id in old(sessions) then old(Lists()) else old(Lists())[id := EMPTY]
    {
      hide Balanced, Tabled, Lists, Idempotent;
      r := GetOrCreate(id);
      if r.Ok? {
        BalancedAcquire(sessions, counts, leases, id);
        counts := counts[id := counts[id] + 1];
        leases := leases + multiset{r.value};
      }
    }

    /** A stream returns its lease. A lease that was taken and not returned is never refused. */
    method ReleaseStream(session: SessionState) returns (r: Result<()>)
      requires Valid()
      modifies this`counts, this`leases
      ensures Valid()
      ensures r.Ok? <==> session in old(leases)
      ensures leases == if r.Ok? then old(leases) - multiset{session} else old(leases)
    {
      hide Balanced, Tabled, Idempotent;
      BalancedRelease(sessions, counts, leases, session);
      if session.id !in sessions || sessions[session.id] != session {
        return Err("cannot release a stale session stream lease");
      }
      if counts[session.id] < 1 {
        return Err("session stream lease count is already zero");
      }
      counts := counts[session.id := counts[session.id] - 1];
      leases := leases - multiset{session};
      r := Ok(());
    }

    /** A session is deleted only when no stream holds it. */
    method Delete(id: string) returns (r: Result<()>)
      requires Valid()
      modifies this
      ensures Valid() && leases == old(leases)
      ensures r.Ok? <==> id in old(sessions) && old(sessions)[id] !in old(leases)
      ensures sessions == if r.Ok? then old(sessions) - {id} else old(sessions)
      ensures Lists() == if r.Ok? then old(Lists()) - {id} else old(Lists())
    {
      hide Balanced, HasId, DistinctIds, Stored, Idempotent;
      if !rules.validId(id) {
        return Err("ValueError");
      }
      if id !in sessions {
        return Err("SessionNotFoundError");
      }
      BalancedRelease(sessions, counts, leases, sessions[id]);
      if counts[id] != 0 {
        return Err("SessionInUseError");
      }
      BalancedDelete(sessions, counts, leases, id);
      sessions := sessions - {id};
      counts := counts - {id};
      r := Ok(());
    }

    /** Enrols one embedding. A failure changes nothing: an absent session is not even registered. */
    method AppendEntry(id: string, entryId: string, embedding: Embedding) returns (r: Result<Whitelist>)
      requires Valid() && rules.validId(entryId) && forall s :: s in sessions.Values ==> !HasId(s.list.entries, entryId)
      modifies this`sessions, this`counts, sessions.Values
      ensures Valid()
      ensures r == match Opened(old(Lists()), rules, maxSessions, id)
                   case Err(message) => Err(message)
                   case Ok(before) => AppendTo(before, rules, maxEntries, entryId, embedding)
      ensures Lists() == if r.Ok? then old(Lists())[id := r.value] else old(Lists())
    {
      hide Balanced, AppendTo, ImportInto, DistinctIds, HasId, Stored, Idempotent;
      ListsHaveSameSize();
      if !rules.validId(id) {
        return Err("ValueError");
      }
      if id in sessions {
        r := sessions[id].Append(rules, entryId, embedding);
        OneListChanged(id);
        return;
      }
      if |sessions| >= maxSessions {
        return Err("SessionLimitError");
      }
      var session := new SessionState(id, maxEntries, rules);
      r := session.Append(rules, entryId, embedding);
      assert Lists() == old(Lists());
      if r.Ok? {
        Register(session);
      }
    }

    /** Imports exported entries: all of them or none, and then not even a new session. */
    method ImportEntries(id: string, given: seq<Entry>) returns (r: Result<Whitelist>)
      requires Valid()
      modifies this`sessions, this`counts, sessions.Values
      ensures Valid()
      ensures r == match Opened(old(Lists()), rules, maxSessions, id)
                   case Err(message) => Err(message)
                   case Ok(before) => ImportInto(before, rules, maxEntries, given)
      ensures Lists() == if r.Ok? then old(Lists())[id := r.value] else old(Lists())
    {
      hide Balanced, AppendTo, ImportInto, DistinctIds, HasId, Stored, Idempotent;
      ListsHaveSameSize();
      if !rules.validId(id) {
        return Err("ValueError");
      }
      if id in sessions {
        r := sessions[id].ImportEntries(rules, given);
        OneListChanged(id);
        return;
      }
      if |sessions| >= maxSessions {
        return Err("SessionLimitError");
      }
      var session := new SessionState(id, maxEntries, rules);
      r := session.ImportEntries(rules, given);
      assert Lists() == old(Lists());
      if r.Ok? {
        Register(session);
      }
    }

    method DeleteWhitelistEntry(id: string, entryId: string) returns (r: Result<Whitelist>)
      requires Valid()
      modifies sessions.Values
      ensures Valid()
      ensures r == if !rules.validId(id) || !rules.validId(entryId) then Err("ValueError")
                   else if id !in old(Lists()) then Err("SessionNotFoundError")
                   else DeleteFrom(old(Lists())[id], entryId)
      ensures Lists() == if r.Ok? then old(Lists())[id := r.value] else old(Lists())
    {
      hide Balanced, DeleteFrom, DistinctIds, Stored, Idempotent;
      if !rules.validId(id) || !rules.validId(entryId) {
        return Err("ValueError");
      }
      if id !in sessions {
        return Err("SessionNotFoundError");
      }
      r := sessions[id].DeleteEntry(entryId, rules);
      OneListChanged(id);
    }

    /** ExportWhitelist, with the fingerprint of the loaded recognition model ("" when none is loaded). */
    method ExportWhitelist(model: string, id: string) returns (r: Result<Export>)
      requires Valid()
      ensures r == Exported(Lists(), rules, model, id)
    {
      if !rules.validId(id) {
        return Err("INVALID_ARGUMENT");
      }
      if model == "" {
        return Err("FAILED_PRECONDITION");
      }
      if id in sessions {
        r := Ok(Export(model, sessions[id].list.entries, sessions[id].list.version));
      } else {
        r := Ok(Export(model, [], 0));
      }
    }

    /** ImportWhitelist: refuses entries of another model before it touches any session. */
    method ImportWhitelist(model: string, id: string, request: Export) returns (r: Result<Whitelist>)
      requires Valid()
      modifies this`sessions, this`counts, sessions.Values
      ensures Valid()
      ensures r == Imported(old(Lists()), rules, maxSessions, maxEntries, model, id, request)
      ensures Lists() == if r.Ok? then old(Lists())[id := r.value] else old(Lists())
    {
      hide Balanced, Stored, Idempotent, DistinctIds, HasId, ImportInto;
      if !rules.validId(id) {
        return Err("INVALID_ARGUMENT");
      }
      if model == "" || request.model != model {
        return Err("FAILED_PRECONDITION");
      }
      r := ImportEntries(id, request.entries);
    }
  }
}
