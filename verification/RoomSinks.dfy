/** Which speakers a room uses, kept as text in a preference: the room sinks of audio.rs. */
module RoomSinks {
  import opened Wrappers
  import opened Text

  datatype SinkRole = Any | Reply | Media

  datatype RoomSink = RoomSink(nodeId: string, sink: Option<string>, role: SinkRole)

  function RoleName(role: SinkRole): (name: string) {
    match role
    case Any => "any"
    case Reply => "reply"
    case Media => "media"
  }

  function ParseRole(s: string): (role: SinkRole) {
    if s == "reply" then Reply else if s == "media" then Media else Any
  }

  // ---------- one entry ----------

  /** `splitn(3, ':')` of a trimmed entry: node, sink and role, the last two optional. */
  function Parse(raw: string): (parsed: Option<RoomSink>) {
    var entry := Trim(raw);
    if entry == "" then None
    else
      var node, rest := Until(entry, ':'), After(entry, ':');
      match rest
      case None => Some(RoomSink(node, None, Any))
      case Some(r) =>
        var name, last := Until(r, ':'), After(r, ':');
        Some(RoomSink(node, if name == "" then None else Some(name),
                      match last case None => Any case Some(role) => ParseRole(role)))
  }

  function NameOf(s: RoomSink): (name: string) {
    match s.sink case None => "" case Some(name) => name
  }

  function Render(s: RoomSink): (entry: string) {
    s.nodeId + ":" + (NameOf(s) + ":" + RoleName(s.role))
  }

  /** A caller can check it: no colon in either name, no whitespace in front of the node, no empty sink name. */
  predicate IsClean(s: RoomSink) {
    && ':' !in s.nodeId && (s.nodeId == "" || !IsWhite(s.nodeId[0]))
    && (s.sink.Some? ==> s.sink.value != "" && ':' !in s.sink.value)
  }

  predicate NoCommas(s: RoomSink) {
    ',' !in s.nodeId && ',' !in NameOf(s)
  }

  lemma {:induction false} TrimOfUntrimmed(s: string)
    requires s != "" && !IsWhite(s[0]) && !IsWhite(s[|s| - 1])
    ensures Trim(s) == s
  {
  }

  /** Whatever was parsed is clean, and holds nothing that was not in the entry. */
  lemma ParsedIsClean(raw: string)
    ensures Parse(raw).Some? ==> IsClean(Parse(raw).value)
    ensures ',' !in raw && Parse(raw).Some? ==> NoCommas(Parse(raw).value)
  {
    var entry := Trim(raw);
    TrimStartKeeps(raw);
    if entry != "" && After(entry, ':').Some? {
      var r := After(entry, ':').value;
      assert forall x :: x in Until(r, ':') ==> x in r;
      assert forall x :: x in r ==> x in entry;
    }
  }

  lemma {:induction false} TrimStartKeeps(s: string)
    ensures forall x :: x in TrimStart(s) ==> x in s
  {
    if s != "" && IsWhite(s[0]) {
      TrimStartKeeps(s[1..]);
    }
  }

  lemma RenderParses(s: RoomSink)
    requires IsClean(s)
    ensures Parse(Render(s)) == Some(s)
  {
    hide Trim, Until, After;
    var entry, role := Render(s), RoleName(s.role);
    assert entry == s.nodeId + [':'] + (NameOf(s) + ":" + role);
    assert NameOf(s) + ":" + role == NameOf(s) + [':'] + role;
    assert entry[|entry| - 1] == role[|role| - 1];
    TrimOfUntrimmed(entry);
    UntilOfConcat(s.nodeId, ':', NameOf(s) + ":" + role);
    UntilOfConcat(NameOf(s), ':', role);
  }

  /** An entry reads back exactly when it is clean. */
  lemma RoundTripIffClean(s: RoomSink)
    ensures Parse(Render(s)) == Some(s) <==> IsClean(s)
  {
    ParsedIsClean(Render(s));
    if IsClean(s) {
      RenderParses(s);
    }
  }

  /** What is stored for a sink, letter by letter. */
  lemma StoredForm(node: string, name: string)
    ensures Render(RoomSink(node, Some(name), Any)) == node + ":" + name + ":any"
    ensures Render(RoomSink(node, Some(name), Reply)) == node + ":" + name + ":reply"
    ensures Render(RoomSink(node, Some(name), Media)) == node + ":" + name + ":media"
    ensures Render(RoomSink(node, None, Any)) == node + "::any"
  {
    assert node + ":" + (name + ":" + "any") == node + ":" + name + ":any";
    assert node + ":" + (name + ":" + "reply") == node + ":" + name + ":reply";
    assert node + ":" + (name + ":" + "media") == node + ":" + name + ":media";
    assert node + ":" + ("" + ":" + "any") == node + "::any";
  }

  /** What an entry means that needs no trimming: the node, and what follows it if anything does. */
  lemma EntryWithoutSink(node: string)
    requires ':' !in node && node != "" && !IsWhite(node[0]) && !IsWhite(node[|node| - 1])
    ensures Parse(node) == Some(RoomSink(node, None, Any)) && Parse("") == None
  {
    hide Trim;
    TrimOfUntrimmed(node);
    TrimOfEmpty();
    UntilOfAll(node, ':');
  }

  lemma EntryWithRest(node: string, rest: string)
    requires ':' !in node && node != "" && !IsWhite(node[0]) && rest != "" && !IsWhite(rest[|rest| - 1])
    ensures Trim(node + ":" + rest) == node + ":" + rest
    ensures Until(node + ":" + rest, ':') == node && After(node + ":" + rest, ':') == Some(rest)
  {
    TrimOfUntrimmed(node + ":" + rest);
    UntilOfConcat(node, ':', rest);
    assert node + [':'] + rest == node + ":" + rest;
  }

  /** Without a role, or with one that is not known, a sink serves every purpose. */
  lemma OlderForms(node: string, name: string, role: string)
    requires ':' !in node && node != "" && !IsWhite(node[0])
    requires ':' !in name && name != "" && !IsWhite(name[|name| - 1]) && role != "" && !IsWhite(role[|role| - 1])
    ensures Parse(node + ":" + name) == Some(RoomSink(node, Some(name), Any))
    ensures role != "reply" && role != "media" ==>
              Parse(node + ":" + (name + ":" + role)) == Some(RoomSink(node, Some(name), Any))
  {
    hide Trim, Until, After;
    EntryWithRest(node, name);
    EntryWithRest(node, name + ":" + role);
    UntilOfAll(name, ':');
    UntilOfConcat(name, ':', role);
    assert name + [':'] + role == name + ":" + role;
  }

  lemma TrimOfEmpty()
    ensures Trim("") == ""
  {
  }

  lemma {:induction false} UntilOfAll(s: string, c: char)
    requires c !in s
    ensures Until(s, c) == s && After(s, c) == None
  {
    if s != "" {
      assert forall x :: x in s[1..] ==> x in s;
      UntilOfAll(s[1..], c);
      assert s == [s[0]] + s[1..];
    }
  }

  // ---------- the list ----------

  /** `filter_map(parse)` over the first `k` entries. */
  function ParseEntries(entries: seq<string>, k: nat): (sinks: seq<RoomSink>)
    requires k <= |entries|
  {
    if k == 0 then []
    else
      ParseEntries(entries, k - 1) + match Parse(entries[k - 1]) case None => [] case Some(s) => [s]
  }

  function ParseList(value: string): (sinks: seq<RoomSink>) {
    var entries := SplitOn(value, ',');
    ParseEntries(entries, |entries|)
  }

  function RenderAll(sinks: seq<RoomSink>): (entries: seq<string>)
    ensures |entries| == |sinks| && forall i :: 0 <= i < |sinks| ==> entries[i] == Render(sinks[i])
  {
    seq(|sinks|, i requires 0 <= i < |sinks| => Render(sinks[i]))
  }

  function RenderList(sinks: seq<RoomSink>): (value: string) {
    JoinOn(RenderAll(sinks), ',', |sinks|)
  }

  predicate AreClean(sinks: seq<RoomSink>) {
    forall i :: 0 <= i < |sinks| ==> IsClean(sinks[i]) && NoCommas(sinks[i])
  }

  lemma {:induction false} EntriesAreClean(entries: seq<string>, k: nat)
    requires k <= |entries| && forall i :: 0 <= i < |entries| ==> ',' !in entries[i]
    ensures AreClean(ParseEntries(entries, k))
  {
    if k > 0 {
      EntriesAreClean(entries, k - 1);
      ParsedIsClean(entries[k - 1]);
    }
  }

  lemma ListIsClean(value: string)
    ensures AreClean(ParseList(value))
  {
    PartsComeFromText(value, ',', |value|);
    var entries := SplitOn(value, ',');
    EntriesAreClean(entries, |entries|);
  }

  lemma {:induction false} EntriesReadBack(sinks: seq<RoomSink>, k: nat)
    requires k <= |sinks| && AreClean(sinks)
    ensures ParseEntries(RenderAll(sinks), k) == sinks[..k]
  {
    hide Parse, Render, IsClean;
    if k > 0 {
      EntriesReadBack(sinks, k - 1);
      RenderParses(sinks[k - 1]);
      assert sinks[..k] == sinks[..k - 1] + [sinks[k - 1]];
    }
  }

  lemma RenderHasNoComma(s: RoomSink)
    requires NoCommas(s)
    ensures ',' !in Render(s)
  {
    var role := RoleName(s.role);
    assert ',' !in role;
  }

  lemma EmptyListReadsBack()
    ensures ParseList(RenderList([])) == []
  {
    SplitOfOnePart("", ',');
    assert ParseEntries([""], 1) == ParseEntries([""], 0) + [];
  }

  lemma CleanListReadsBack(sinks: seq<RoomSink>)
    requires AreClean(sinks) && sinks != []
    ensures ParseList(RenderList(sinks)) == sinks
  {
    hide Parse, Render, IsClean, ParseEntries, SplitOn, JoinOn;
    forall i | 0 <= i < |sinks|
      ensures ',' !in RenderAll(sinks)[i]
    {
      RenderHasNoComma(sinks[i]);
    }
    SplitOfJoin(RenderAll(sinks), ',', |sinks|);
    assert RenderAll(sinks)[..|sinks|] == RenderAll(sinks);
    EntriesReadBack(sinks, |sinks|);
    assert sinks[..|sinks|] == sinks;
  }

  /** A list reads back exactly when every entry is clean and holds no comma. */
  lemma ListRoundTripIffClean(sinks: seq<RoomSink>)
    ensures ParseList(RenderList(sinks)) == sinks <==> AreClean(sinks)
  {
    hide ParseList, RenderList, IsClean;
    ListIsClean(RenderList(sinks));
    if sinks == [] {
      EmptyListReadsBack();
    } else if AreClean(sinks) {
      CleanListReadsBack(sinks);
    }
  }

  // ---------- the store ----------

  predicate SameKey(s: RoomSink, nodeId: string, sink: Option<string>) {
    s.nodeId == nodeId && s.sink == sink
  }

  /** The first entry with this key, from `i` on, or the length. */
  function FindSink(sinks: seq<RoomSink>, nodeId: string, sink: Option<string>, i: nat): (p: nat)
    requires i <= |sinks|
    ensures i <= p <= |sinks|
    ensures p < |sinks| ==> SameKey(sinks[p], nodeId, sink)
    ensures forall j :: i <= j < p ==> !SameKey(sinks[j], nodeId, sink)
    decreases |sinks| - i
  {
    if i == |sinks| || SameKey(sinks[i], nodeId, sink) then i else FindSink(sinks, nodeId, sink, i + 1)
  }

  /** An entry's role is updated in place, or the entry joins at the end. */
  function Upserted(sinks: seq<RoomSink>, e: RoomSink): (after: seq<RoomSink>) {
    var p := FindSink(sinks, e.nodeId, e.sink, 0);
    if p < |sinks| then sinks[p := sinks[p].(role := e.role)] else sinks + [e]
  }

  function Without(sinks: seq<RoomSink>, nodeId: string, sink: Option<string>, k: nat): (after: seq<RoomSink>)
    requires k <= |sinks|
  {
    if k == 0 then []
    else Without(sinks, nodeId, sink, k - 1) + if SameKey(sinks[k - 1], nodeId, sink) then [] else [sinks[k - 1]]
  }

  function Removed(sinks: seq<RoomSink>, nodeId: string, sink: Option<string>): (after: seq<RoomSink>) {
    Without(sinks, nodeId, sink, |sinks|)
  }

  type Prefs = map<string, string>

  function Key(room: string): (key: string) {
    "room-audio-sink:" + room
  }

  /** Every sink assigned to a room. */
  function SinksOf(prefs: Prefs, room: string): (sinks: seq<RoomSink>) {
    if Key(room) in prefs then ParseList(prefs[Key(room)]) else []
  }

  function AddTo(prefs: Prefs, room: string, e: RoomSink): (after: Prefs) {
    prefs[Key(room) := RenderList(Upserted(SinksOf(prefs, room), e))]
  }

  function RemoveFrom(prefs: Prefs, room: string, nodeId: string, sink: Option<string>): (after: Prefs) {
    var remaining := Removed(SinksOf(prefs, room), nodeId, sink);
    if remaining == [] then prefs - {Key(room)} else prefs[Key(room) := RenderList(remaining)]
  }

  /** The preferences, as the registry holds them. */
  class Registry {
    var prefs: Prefs

    constructor ()
      ensures prefs == map[]
    {
      prefs := map[];
    }

    method AddRoomSink(room: string, nodeId: string, sink: Option<string>, role: SinkRole)
      modifies this
      ensures prefs == AddTo(old(prefs), room, RoomSink(nodeId, sink, role))
    {
      var sinks := SinksOf(prefs, room);
      var i := 0;
      while i < |sinks| && !SameKey(sinks[i], nodeId, sink)
        invariant i <= |sinks|
        invariant FindSink(sinks, nodeId, sink, 0) == FindSink(sinks, nodeId, sink, i)
      {
        i := i + 1;
      }
      if i < |sinks| {
        sinks := sinks[i := sinks[i].(role := role)];
      } else {
        sinks := sinks + [RoomSink(nodeId, sink, role)];
      }
      prefs := prefs[Key(room) := RenderList(sinks)];
    }

    method RemoveRoomSink(room: string, nodeId: string, sink: Option<string>)
      modifies this
      ensures prefs == RemoveFrom(old(prefs), room, nodeId, sink)
    {
      var sinks := SinksOf(prefs, room);
      var remaining := [];
      for k := 0 to |sinks|
        invariant remaining == Without(sinks, nodeId, sink, k)
      {
        if !SameKey(sinks[k], nodeId, sink) {
          remaining := remaining + [sinks[k]];
        }
      }
      if remaining == [] {
        prefs := prefs - {Key(room)};
      } else {
        prefs := prefs[Key(room) := RenderList(remaining)];
      }
    }
  }

  // ---------- the store is an ordered map, whatever text it holds ----------

  lemma KeysAreDistinct(room: string, other: string)
    requires Key(room) == Key(other)
    ensures room == other
  {
    assert Key(room)[16..] == room && Key(other)[16..] == other;
  }

  /** Adding an entry does to the room's list what it should, exactly when the entry is clean and has no comma. */
  lemma AddRefinesIffClean(prefs: Prefs, room: string, e: RoomSink)
    ensures SinksOf(AddTo(prefs, room, e), room) == Upserted(SinksOf(prefs, room), e) <==> IsClean(e) && NoCommas(e)
  {
    hide ParseList, RenderList, IsClean, NoCommas, Key;
    var sinks := SinksOf(prefs, room);
    var after := Upserted(sinks, e);
    if Key(room) in prefs {
      ListIsClean(prefs[Key(room)]);
    }
    ListRoundTripIffClean(after);
    var p := FindSink(sinks, e.nodeId, e.sink, 0);
    if p < |sinks| {
      CleanlinessIgnoresRole(sinks[p], e.role);
      assert sinks[p].(role := e.role) == e;
    }
    UpsertedHoldsEntry(sinks, e);
  }

  lemma {:induction false} EntriesPast(a: seq<string>, b: seq<string>, k: nat)
    requires k <= |b|
    ensures ParseEntries(a, |a|) <= ParseEntries(a + b, |a| + k)
    decreases k
  {
    hide Parse;
    if k == 0 {
      EntriesOfPrefix(a, a + b, |a|);
    } else {
      EntriesPast(a, b, k - 1);
    }
  }

  lemma {:induction false} EntriesOfPrefix(a: seq<string>, b: seq<string>, k: nat)
    requires k <= |a| && k <= |b| && forall i :: 0 <= i < k ==> a[i] == b[i]
    ensures ParseEntries(a, k) == ParseEntries(b, k)
  {
    hide Parse;
    if k > 0 {
      EntriesOfPrefix(a, b, k - 1);
    }
  }

  /** Whatever is appended to a clean list, the list itself reads back in front of it. */
  lemma AppendedBehind(sinks: seq<RoomSink>, e: RoomSink)
    requires AreClean(sinks)
    ensures sinks <= ParseList(RenderList(sinks + [e]))
  {
    hide Parse, Render, IsClean, ParseEntries, SplitOn;
    if sinks != [] {
      var before, after := RenderAll(sinks), RenderAll(sinks + [e]);
      JoinOfPrefix(before, after, ',', |sinks|);
      assert RenderList(sinks + [e]) == RenderList(sinks) + [','] + Render(e);
      SplitOfJoined(RenderList(sinks), ',', Render(e));
      CleanListReadsBack(sinks);
      var entries, more := SplitOn(RenderList(sinks), ','), SplitOn(Render(e), ',');
      EntriesPast(entries, more, |more|);
    }
  }

  lemma KeysAre(room: string)
    ensures Key(room) == "room-audio-sink:" + room
  {
  }

  /** Adding a sink never disturbs another: each is still there, in its place and with its role, whatever is added. */
  lemma AddDisturbsNoOther(prefs: Prefs, room: string, e: RoomSink)
    ensures var sinks, after := SinksOf(prefs, room), SinksOf(AddTo(prefs, room, e), room);
            && |sinks| <= |after|
            && (forall i :: 0 <= i < |sinks| && !SameKey(sinks[i], e.nodeId, e.sink) ==> after[i] == sinks[i])
            && (!(IsClean(e) && NoCommas(e)) ==> sinks <= after)
  {
    hide ParseList, RenderList, IsClean, NoCommas, Key;
    var sinks, p := SinksOf(prefs, room), FindSink(SinksOf(prefs, room), e.nodeId, e.sink, 0);
    if Key(room) in prefs {
      ListIsClean(prefs[Key(room)]);
    }
    AddRefinesIffClean(prefs, room, e);
    if p == |sinks| {
      AppendedBehind(sinks, e);
    } else {
      CleanlinessIgnoresRole(sinks[p], e.role);
      assert sinks[p].(role := e.role) == e;
    }
  }

  lemma CleanlinessIgnoresRole(s: RoomSink, role: SinkRole)
    ensures IsClean(s.(role := role)) == IsClean(s) && NoCommas(s.(role := role)) == NoCommas(s)
  {
  }

  lemma UpsertedHoldsEntry(sinks: seq<RoomSink>, e: RoomSink)
    ensures exists i :: 0 <= i < |Upserted(sinks, e)| && Upserted(sinks, e)[i] == e
  {
    var p := FindSink(sinks, e.nodeId, e.sink, 0);
    assert Upserted(sinks, e)[p] == e;
  }

  lemma {:induction false} WithoutIsPart(sinks: seq<RoomSink>, nodeId: string, sink: Option<string>, k: nat)
    requires k <= |sinks|
    ensures forall i :: 0 <= i < |Without(sinks, nodeId, sink, k)| ==>
              Without(sinks, nodeId, sink, k)[i] in sinks && !SameKey(Without(sinks, nodeId, sink, k)[i], nodeId, sink)
  {
    if k > 0 {
      WithoutIsPart(sinks, nodeId, sink, k - 1);
    }
  }

  /** Removing an entry does to the room's list what it should, whatever text was stored. */
  lemma RemoveRefines(prefs: Prefs, room: string, nodeId: string, sink: Option<string>)
    ensures SinksOf(RemoveFrom(prefs, room, nodeId, sink), room) == Removed(SinksOf(prefs, room), nodeId, sink)
    ensures Key(room) in RemoveFrom(prefs, room, nodeId, sink) <==> Removed(SinksOf(prefs, room), nodeId, sink) != []
  {
    hide ParseList, RenderList, IsClean, NoCommas, Key;
    var sinks := SinksOf(prefs, room);
    if Key(room) in prefs {
      ListIsClean(prefs[Key(room)]);
    }
    WithoutIsPart(sinks, nodeId, sink, |sinks|);
    ListRoundTripIffClean(Removed(sinks, nodeId, sink));
  }

  /** Other rooms do not notice. */
  lemma OtherRoomsUntouched(
    prefs: Prefs, room: string, e: RoomSink, nodeId: string, sink: Option<string>, other: string)
    requires other != room
    ensures SinksOf(AddTo(prefs, room, e), other) == SinksOf(prefs, other)
    ensures SinksOf(RemoveFrom(prefs, room, nodeId, sink), other) == SinksOf(prefs, other)
  {
    hide ParseList, RenderList;
    if Key(room) == Key(other) {
      KeysAreDistinct(room, other);
    }
  }

  // ---------- the ordered map ----------

  ghost predicate UniqueKeys(sinks: seq<RoomSink>) {
    forall i, j :: 0 <= i < j < |sinks| ==> !SameKey(sinks[j], sinks[i].nodeId, sinks[i].sink)
  }

  /** The role the list gives a key. */
  function RoleOf(sinks: seq<RoomSink>, nodeId: string, sink: Option<string>): (role: Option<SinkRole>) {
    var p := FindSink(sinks, nodeId, sink, 0);
    if p < |sinks| then Some(sinks[p].role) else None
  }

  lemma {:induction false} RoleIsUnique(sinks: seq<RoomSink>, i: nat)
    requires UniqueKeys(sinks) && i < |sinks|
    ensures RoleOf(sinks, sinks[i].nodeId, sinks[i].sink) == Some(sinks[i].role)
  {
  }

  /** The last role wins, no other key changes, keys stay unique, and the order is that of the first additions. */
  lemma UpsertIsMapUpdate(sinks: seq<RoomSink>, e: RoomSink, nodeId: string, sink: Option<string>)
    requires UniqueKeys(sinks)
    ensures UniqueKeys(Upserted(sinks, e))
    ensures RoleOf(Upserted(sinks, e), nodeId, sink)
         == if SameKey(e, nodeId, sink) then Some(e.role) else RoleOf(sinks, nodeId, sink)
    ensures forall i :: 0 <= i < |sinks| ==> SameKey(Upserted(sinks, e)[i], sinks[i].nodeId, sinks[i].sink)
    ensures |Upserted(sinks, e)| == |sinks| + if RoleOf(sinks, e.nodeId, e.sink).Some? then 0 else 1
  {
    var after := Upserted(sinks, e);
    var p, r := FindSink(sinks, nodeId, sink, 0), FindSink(sinks, e.nodeId, e.sink, 0);
    assert UniqueKeys(after);
    if SameKey(e, nodeId, sink) {
      RoleIsUnique(after, r);
    } else if p < |sinks| {
      RoleIsUnique(after, p);
    } else {
      assert forall j :: 0 <= j < |after| ==> !SameKey(after[j], nodeId, sink);
    }
  }

  lemma {:induction false} WithoutExactly(
    sinks: seq<RoomSink>, nodeId: string, sink: Option<string>, k: nat, s: RoomSink)
    requires k <= |sinks|
    ensures s in Without(sinks, nodeId, sink, k) <==> s in sinks[..k] && !SameKey(s, nodeId, sink)
  {
    if k > 0 {
      WithoutExactly(sinks, nodeId, sink, k - 1, s);
      assert sinks[..k] == sinks[..k - 1] + [sinks[k - 1]];
    }
  }

  lemma {:induction false} WithoutKeepsUnique(sinks: seq<RoomSink>, nodeId: string, sink: Option<string>, k: nat)
    requires k <= |sinks| && UniqueKeys(sinks)
    ensures UniqueKeys(Without(sinks, nodeId, sink, k))
    ensures forall s :: s in Without(sinks, nodeId, sink, k) ==> s in sinks[..k]
  {
    if k > 0 {
      WithoutKeepsUnique(sinks, nodeId, sink, k - 1);
      assert sinks[..k] == sinks[..k - 1] + [sinks[k - 1]];
      var before := Without(sinks, nodeId, sink, k - 1);
      forall i | 0 <= i < |before|
        ensures !SameKey(sinks[k - 1], before[i].nodeId, before[i].sink)
      {
        assert before[i] in sinks[..k - 1];
        var j :| 0 <= j < k - 1 && sinks[j] == before[i];
      }
    }
  }

  /** The removed key is gone, no other key changes, and keys stay unique. */
  lemma RemoveIsMapDelete(
    sinks: seq<RoomSink>, nodeId: string, sink: Option<string>, other: string, otherSink: Option<string>)
    requires UniqueKeys(sinks)
    ensures UniqueKeys(Removed(sinks, nodeId, sink))
    ensures RoleOf(Removed(sinks, nodeId, sink), other, otherSink)
         == if nodeId == other && sink == otherSink then None else RoleOf(sinks, other, otherSink)
  {
    hide Without;
    var after := Removed(sinks, nodeId, sink);
    WithoutKeepsUnique(sinks, nodeId, sink, |sinks|);
    WithoutIsPart(sinks, nodeId, sink, |sinks|);
    assert sinks[..|sinks|] == sinks;
    var p, q := FindSink(sinks, other, otherSink, 0), FindSink(after, other, otherSink, 0);
    if p < |sinks| && !(nodeId == other && sink == otherSink) {
      WithoutExactly(sinks, nodeId, sink, |sinks|, sinks[p]);
      var r :| 0 <= r < |after| && after[r] == sinks[p];
      RoleIsUnique(after, r);
    }
    if q < |after| {
      assert after[q] in sinks;
      var r :| 0 <= r < |sinks| && sinks[r] == after[q];
    }
  }

  // ---------- runs ----------

  datatype Op = Add(room: string, e: RoomSink) | Remove(room: string, nodeId: string, sink: Option<string>)

  function Applied(prefs: Prefs, op: Op): (after: Prefs) {
    match op
    case Add(room, e) => AddTo(prefs, room, e)
    case Remove(room, nodeId, sink) => RemoveFrom(prefs, room, nodeId, sink)
  }

  /** The preferences after the first `k` operations on an empty store. */
  function Store(ops: seq<Op>, k: nat): (prefs: Prefs)
    requires k <= |ops|
  {
    if k == 0 then map[] else Applied(Store(ops, k - 1), ops[k - 1])
  }

  /** The same operations on a plain list, for one room. */
  function Ideal(ops: seq<Op>, k: nat, room: string): (sinks: seq<RoomSink>)
    requires k <= |ops|
  {
    if k == 0 then []
    else
      var before := Ideal(ops, k - 1, room);
      match ops[k - 1]
      case Add(r, e) => if r == room then Upserted(before, e) else before
      case Remove(r, nodeId, sink) => if r == room then Removed(before, nodeId, sink) else before
  }

  predicate AddsAreClean(ops: seq<Op>) {
    forall i :: 0 <= i < |ops| && ops[i].Add? ==> IsClean(ops[i].e) && NoCommas(ops[i].e)
  }

  lemma OtherKeysUntouched(prefs: Prefs, op: Op, room: string)
    requires op.room != room
    ensures Key(room) in Applied(prefs, op) <==> Key(room) in prefs
  {
    if Key(room) == Key(op.room) {
      KeysAreDistinct(room, op.room);
    }
  }

  /** After any run, the stored text is the ideal list; its keys are unique; and it is absent exactly when empty. */
  lemma {:induction false} RunsRefineOrderedMap(ops: seq<Op>, k: nat, room: string)
    requires k <= |ops| && AddsAreClean(ops)
    ensures SinksOf(Store(ops, k), room) == Ideal(ops, k, room)
    ensures UniqueKeys(Ideal(ops, k, room))
    ensures Key(room) in Store(ops, k) <==> Ideal(ops, k, room) != []
  {
    hide ParseList, RenderList, IsClean, NoCommas, Key, SinksOf, AddTo, RemoveFrom, Upserted, Removed, RoleOf;
    if k == 0 {
      NothingStored(room);
    } else {
      RunsRefineOrderedMap(ops, k - 1, room);
      var prefs, before := Store(ops, k - 1), Ideal(ops, k - 1, room);
      match ops[k - 1]
      case Add(r, e) =>
        if r == room {
          AddRefinesIffClean(prefs, room, e);
          UpsertIsMapUpdate(before, e, "", None);
          AddStores(prefs, room, e);
        } else {
          OtherRoomsUntouched(prefs, r, e, "", None, room);
          OtherKeysUntouched(prefs, ops[k - 1], room);
        }
      case Remove(r, nodeId, sink) =>
        if r == room {
          RemoveRefines(prefs, room, nodeId, sink);
          RemoveIsMapDelete(before, nodeId, sink, "", None);
        } else {
          OtherRoomsUntouched(prefs, r, RoomSink("", None, Any), nodeId, sink, room);
          OtherKeysUntouched(prefs, ops[k - 1], room);
        }
    }
  }

  lemma NothingStored(room: string)
    ensures SinksOf(map[], room) == []
  {
  }

  lemma AddStores(prefs: Prefs, room: string, e: RoomSink)
    ensures Key(room) in AddTo(prefs, room, e) && Upserted(SinksOf(prefs, room), e) != []
  {
    UpsertedHoldsEntry(SinksOf(prefs, room), e);
  }
}
