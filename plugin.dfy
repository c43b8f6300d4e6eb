/**
 * The `OnlyListenToMe` plugin object: the `_sleep_groups` table it updates in
 * place, and the backing file `sleep_groups.json` its saves overwrite. The
 * host's admin check and group id arrive in the `Event`; the outcome of a
 * write arrives as a `WriteResult`.
 */
module Plugin {
  import opened Wrappers
  import opened SleepGroups
  import opened Policy

  class OnlyListenToMe {
    /** `self._sleep_groups`. */
    var sleepGroups: Table
    /** The content of `sleep_groups.json` in the plugin's data directory. */
    var dataFile: DataFile

    /** `__init__`: the table starts empty; the file is whatever is on disk. */
    constructor (onDisk: DataFile)
      ensures sleepGroups == Empty() && dataFile == onDisk
    {
      sleepGroups := Empty();
      dataFile := onDisk;
    }

    /** `_load_data`, run by `on_loaded`: replaces the table with what the file holds. */
    method LoadData()
      modifies this`sleepGroups
      ensures sleepGroups == Loaded(dataFile)
      ensures !(dataFile.Holds? && dataFile.json.Object?) ==> sleepGroups == Empty()
    {
      match dataFile
      case Missing =>
        sleepGroups := Empty();
      case Unreadable =>
        sleepGroups := Empty();
      case Holds(json) =>
        sleepGroups := if json.Object? then json.entries else Empty();
    }

    /** `_save_data`: overwrites the file with the table; a failure leaves the table alone. */
    method SaveData(w: WriteResult)
      modifies this`dataFile
      ensures dataFile == Saved(sleepGroups, old(dataFile), w)
      ensures w.Written? ==> Loaded(dataFile) == sleepGroups
    {
      match w
      case Written =>
        dataFile := Holds(Object(sleepGroups));
      case WriteFailed(left) =>
        dataFile := left;
    }

    /** `on_group_message`: whether the message is stopped before any other handler sees it. */
    method OnGroupMessage(ev: Event) returns (stopped: bool)
      ensures stopped == Suppressed(sleepGroups, ev)
    {
      stopped := false;
      if !InGroup(ev) {
        return;
      }
      if !IsSleepGroup(sleepGroups, ev.groupId.value) {
        return;
      }
      if ev.isAdmin {
        return;
      }
      stopped := true;
    }

    /** `enable_owner_only`; `w` is how the save, if one runs, ends. */
    method EnableOwnerOnly(ev: Event, w: WriteResult) returns (reply: Option<Reply>)
      modifies this
      ensures reply == Enable(old(sleepGroups), ev).reply
      ensures sleepGroups == Enable(old(sleepGroups), ev).table
      ensures dataFile == if Enable(old(sleepGroups), ev).saves then Saved(sleepGroups, old(dataFile), w) else old(dataFile)
    {
      if !ev.isAdmin {
        return None;
      }
      if !InGroup(ev) {
        return None;
      }
      var groupId := ev.groupId.value;
      if IsSleepGroup(sleepGroups, groupId) {
        return Some(DontSayItAgain);
      }
      sleepGroups := Put(sleepGroups, groupId, true);
      SaveData(w);
      reply := Some(OwnerOnlyOn);
    }

    /** `disable_owner_only`; `w` is how the save, if one runs, ends. */
    method DisableOwnerOnly(ev: Event, w: WriteResult) returns (reply: Option<Reply>)
      modifies this
      ensures reply == Disable(old(sleepGroups), ev).reply
      ensures sleepGroups == Disable(old(sleepGroups), ev).table
      ensures dataFile == if Disable(old(sleepGroups), ev).saves then Saved(sleepGroups, old(dataFile), w) else old(dataFile)
    {
      if !ev.isAdmin {
        return None;
      }
      if !InGroup(ev) {
        return None;
      }
      var groupId := ev.groupId.value;
      if !IsSleepGroup(sleepGroups, groupId) {
        return Some(DontSayItAgain);
      }
      sleepGroups := Put(sleepGroups, groupId, false);
      SaveData(w);
      reply := Some(EveryoneOn);
    }

    /**
     * `list_sleep_groups`: walks the table in order, keeping the restricted
     * groups, and replies with them; it changes nothing.
     */
    method ListSleepGroups(ev: Event) returns (reply: Option<Reply>)
      ensures reply == List(sleepGroups, ev)
    {
      if !ev.isAdmin {
        return None;
      }
      var ids: seq<string> := [];
      var i := 0;
      while i < |sleepGroups.keys|
        invariant 0 <= i <= |sleepGroups.keys|
        invariant ids == OnKeys(sleepGroups.keys[..i], sleepGroups.flags)
      {
        var gid := sleepGroups.keys[i];
        assert sleepGroups.keys[..i + 1][..i] == sleepGroups.keys[..i];
        if sleepGroups.flags[gid] {
          ids := ids + [gid];
        }
        i := i + 1;
      }
      assert sleepGroups.keys[..i] == sleepGroups.keys;
      if ids == [] {
        return Some(NoneListed);
      }
      reply := Some(Listing(ids));
    }
  }
}
