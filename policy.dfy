/**
 * What each handler of the `OnlyListenToMe` plugin decides, as functions of
 * the table and the incoming event, and what loading and saving the backing
 * file `sleep_groups.json` do, with the file's content kept abstract.
 */
module Policy {
  import opened Wrappers
  import opened SleepGroups

  /** What the host reports about a group message: `get_group_id()` and `is_admin()`. */
  datatype Event = Event(groupId: Option<string>, isAdmin: bool)

  /** `if not group_id`: both a missing id and the empty string mean "not in a group". */
  predicate InGroup(ev: Event): (ok: bool)
    ensures ok <==> ev.groupId != None && ev.groupId != Some("")
  {
    ev.groupId.Some? && ev.groupId.value != ""
  }

  /** The replies the commands send; the wording itself is not modelled. */
  datatype Reply =
    | DontSayItAgain           // the refusal, for "already on" and "already off"
    | OwnerOnlyOn              // confirmation of enable
    | EveryoneOn               // confirmation of disable
    | NoneListed               // no group is restricted
    | Listing(groups: seq<string>)

  /** A command's reply, the table after it, and whether it saved the table. */
  datatype Outcome = Outcome(reply: Option<Reply>, table: Table, saves: bool)

  // ----- the message gate -----

  /** The gate suppresses a message exactly when its group is known, restricted, and the sender is no admin. */
  predicate Suppressed(t: Table, ev: Event): (stop: bool)
    ensures stop ==> ev.groupId.Some? && ev.groupId.value in t.keys
    ensures stop ==> !ev.isAdmin
  {
    InGroup(ev) && IsSleepGroup(t, ev.groupId.value) && !ev.isAdmin
  }

  lemma GateSuppressesExactly(t: Table, ev: Event)
    ensures Suppressed(t, ev) <==>
      && ev.groupId.Some? && ev.groupId.value != ""
      && ev.groupId.value in t.flags && t.flags[ev.groupId.value]
      && !ev.isAdmin
  {
  }

  /** A group the table has never held is open to everyone, and admins are never suppressed. */
  lemma GateLetsThrough(t: Table, ev: Event)
    ensures InGroup(ev) && ev.groupId.value !in t.keys ==> !Suppressed(t, ev)
    ensures ev.isAdmin ==> !Suppressed(t, ev)
    ensures !InGroup(ev) ==> !Suppressed(t, ev)
  {
  }

  // ----- the enable and disable commands -----

  /** `enable_owner_only`. */
  function Enable(t: Table, ev: Event): (o: Outcome)
    ensures o.reply.Some? <==> ev.isAdmin && InGroup(ev)
    ensures o.saves <==> o.reply == Some(OwnerOnlyOn)
    ensures !o.saves ==> o.table == t
    ensures o.reply.Some? ==> IsSleepGroup(o.table, ev.groupId.value)
  {
    if !ev.isAdmin then Outcome(None, t, false)
    else if !InGroup(ev) then Outcome(None, t, false)
    else if IsSleepGroup(t, ev.groupId.value) then Outcome(Some(DontSayItAgain), t, false)
    else Outcome(Some(OwnerOnlyOn), Put(t, ev.groupId.value, true), true)
  }

  /** `disable_owner_only`. */
  function Disable(t: Table, ev: Event): (o: Outcome)
    ensures o.reply.Some? <==> ev.isAdmin && InGroup(ev)
    ensures o.saves <==> o.reply == Some(EveryoneOn)
    ensures !o.saves ==> o.table == t
    ensures o.reply.Some? ==> !IsSleepGroup(o.table, ev.groupId.value)
  {
    if !ev.isAdmin then Outcome(None, t, false)
    else if !InGroup(ev) then Outcome(None, t, false)
    else if !IsSleepGroup(t, ev.groupId.value) then Outcome(Some(DontSayItAgain), t, false)
    else Outcome(Some(EveryoneOn), Put(t, ev.groupId.value, false), true)
  }

  /** A non-admin sender, or a message outside a group, gets no reply and changes nothing. */
  lemma CommandsIgnoreOthers(t: Table, ev: Event)
    requires !ev.isAdmin || !InGroup(ev)
    ensures Enable(t, ev) == Outcome(None, t, false)
    ensures Disable(t, ev) == Outcome(None, t, false)
  {
  }

  /** Enable on a restricted group, and disable on an open one (absent included), only refuse. */
  lemma RepeatedCommandRefused(t: Table, ev: Event)
    requires ev.isAdmin && InGroup(ev)
    ensures IsSleepGroup(t, ev.groupId.value) ==> Enable(t, ev) == Outcome(Some(DontSayItAgain), t, false)
    ensures !IsSleepGroup(t, ev.groupId.value) ==> Disable(t, ev) == Outcome(Some(DontSayItAgain), t, false)
    ensures ev.groupId.value !in t.keys ==> Disable(t, ev) == Outcome(Some(DontSayItAgain), t, false)
  {
  }

  /** A successful enable restricts the group and touches no other group. */
  lemma EnableSucceeds(t: Table, ev: Event)
    requires ev.isAdmin && InGroup(ev) && !IsSleepGroup(t, ev.groupId.value)
    ensures Enable(t, ev).reply == Some(OwnerOnlyOn) && Enable(t, ev).saves
    ensures IsSleepGroup(Enable(t, ev).table, ev.groupId.value)
    ensures forall g :: g != ev.groupId.value ==>
      (g in Enable(t, ev).table.flags <==> g in t.flags) &&
      (g in t.flags ==> Enable(t, ev).table.flags[g] == t.flags[g])
  {
  }

  /** A successful disable stores `False` instead of deleting the key, and touches no other group. */
  lemma DisableSucceeds(t: Table, ev: Event)
    requires ev.isAdmin && InGroup(ev) && IsSleepGroup(t, ev.groupId.value)
    ensures Disable(t, ev).reply == Some(EveryoneOn) && Disable(t, ev).saves
    ensures ev.groupId.value in Disable(t, ev).table.flags
    ensures !Disable(t, ev).table.flags[ev.groupId.value]
    ensures Disable(t, ev).table.keys == t.keys
    ensures forall g :: g != ev.groupId.value ==>
      (g in Disable(t, ev).table.flags <==> g in t.flags) &&
      (g in t.flags ==> Disable(t, ev).table.flags[g] == t.flags[g])
  {
  }

  /**
   * Enable then disable by an admin opens the group again, and every group
   * reads as it did before; only a new key with `False` may remain.
   */
  lemma EnableThenDisable(t: Table, ev: Event)
    requires ev.isAdmin && InGroup(ev) && !IsSleepGroup(t, ev.groupId.value)
    ensures var after := Disable(Enable(t, ev).table, ev);
      && after.reply == Some(EveryoneOn)
      && forall g :: IsSleepGroup(after.table, g) == IsSleepGroup(t, g)
  {
  }

  /** The second of two enables in a row only refuses. */
  lemma EnableTwice(t: Table, ev: Event)
    requires ev.isAdmin && InGroup(ev) && !IsSleepGroup(t, ev.groupId.value)
    ensures Enable(t, ev).reply == Some(OwnerOnlyOn)
    ensures Enable(Enable(t, ev).table, ev) == Outcome(Some(DontSayItAgain), Enable(t, ev).table, false)
  {
  }

  // ----- the list command -----

  /** `list_sleep_groups`. */
  function List(t: Table, ev: Event): (r: Option<Reply>)
    ensures r.Some? <==> ev.isAdmin
    ensures r == Some(NoneListed) <==> ev.isAdmin && forall g :: !IsSleepGroup(t, g)
    ensures r.Some? && r.value.Listing? ==>
      && (forall g :: g in r.value.groups <==> IsSleepGroup(t, g))
      && NoDuplicates(r.value.groups)
  {
    SleepGroupIdsExactly(t);
    if !ev.isAdmin then None
    else if SleepGroupIds(t) == [] then Some(NoneListed)
    else Some(Listing(SleepGroupIds(t)))
  }

  // ----- loading and saving sleep_groups.json -----

  /** A parsed JSON document: an object of group flags, or any other JSON value. */
  datatype Json = Object(entries: Table) | NotObject

  /** The backing file: absent, present but failing to open, decode or parse, or holding a JSON value. */
  datatype DataFile = Missing | Unreadable | Holds(json: Json)

  /** `_load_data`: the table a load yields from the file. */
  function Loaded(f: DataFile): (t: Table)
    ensures t.keys != [] ==> f.Holds? && f.json.Object? && t == f.json.entries
  {
    match f
    case Missing => Empty()
    case Unreadable => Empty()
    case Holds(json) => if json.Object? then json.entries else Empty()
  }

  /** A missing, unreadable or non-object file loads as the empty table; an object loads as itself. */
  lemma LoadedCases(f: DataFile)
    ensures f.Holds? && f.json.Object? ==> Loaded(f) == f.json.entries
    ensures !(f.Holds? && f.json.Object?) ==> Loaded(f) == Empty()
    ensures !(f.Holds? && f.json.Object?) ==> forall g :: !IsSleepGroup(Loaded(f), g)
  {
  }

  /** How a write of the file ended: written in full, or failed leaving the file as `left`. */
  datatype WriteResult = Written | WriteFailed(left: DataFile)

  /** `_save_data`: the file after writing table `t` over `before`. */
  function Saved(t: Table, before: DataFile, w: WriteResult): (f: DataFile)
    ensures w.Written? ==> f.Holds? && f.json.Object?
  {
    match w
    case Written => Holds(Object(t))
    case WriteFailed(left) => left
  }

  /** A save that succeeds followed by a load (a restart) gives back the same table. */
  lemma SaveThenLoad(t: Table, before: DataFile)
    ensures Loaded(Saved(t, before, Written)) == t
    ensures forall g :: IsSleepGroup(Loaded(Saved(t, before, Written)), g) == IsSleepGroup(t, g)
  {
  }

  // ----- scenarios -----

  /** Group "100": open, then restricted by an admin, then opened again. */
  lemma GateScenario()
    ensures var member, admin := Event(Some("100"), false), Event(Some("100"), true);
      && !Suppressed(Empty(), member) && !Suppressed(Empty(), admin)
      && var on := Enable(Empty(), admin);
      && on.reply == Some(OwnerOnlyOn)
      && Suppressed(on.table, member) && !Suppressed(on.table, admin)
      && var off := Disable(on.table, admin);
      && off.reply == Some(EveryoneOn)
      && !Suppressed(off.table, member) && !Suppressed(off.table, admin)
  {
  }

  /**
   * Starting from an empty table, enabling groups a and c and then trying to
   * disable the never-restricted group b lists exactly a and c, in that order.
   */
  lemma ListScenario(a: string, b: string, c: string)
    requires a != "" && b != "" && c != ""
    requires a != b && b != c && a != c
    ensures var t1 := Enable(Empty(), Event(Some(a), true)).table;
      var t2 := Enable(t1, Event(Some(c), true)).table;
      var t3 := Disable(t2, Event(Some(b), true));
      && t3.reply == Some(DontSayItAgain)
      && List(t3.table, Event(None, true)) == Some(Listing([a, c]))
  {
    var t1 := Put(Empty(), a, true);
    assert Enable(Empty(), Event(Some(a), true)).table == t1;
    PutNewGroupAppends(Empty(), a);
    assert t1.keys == [a];
    var t2 := Put(t1, c, true);
    assert Enable(t1, Event(Some(c), true)).table == t2;
    PutNewGroupAppends(t1, c);
    assert t2.keys == [a, c];
    assert Disable(t2, Event(Some(b), true)) == Outcome(Some(DontSayItAgain), t2, false);
  }
}
