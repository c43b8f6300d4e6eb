# Only listen to me — a Dafny model

This project models the `OnlyListenToMe` plugin of the chat-bot host. The plugin keeps
one table, `_sleep_groups`, that maps a group id to a flag meaning "in this group only
admins are listened to". Four handlers read or change that table:

- the message gate, which stops a group message before any other handler sees it;
- the enable command (`只听我的`), admin only, with an "already on" refusal;
- the disable command (`听大家的`), admin only, with an "already off" refusal;
- the list command (`屏蔽列表` / `屏蔽群列表`), admin only, which lists the restricted groups.

The table is loaded from `sleep_groups.json` at start-up and saved after every change.

Layout, one module per file:

- `wrappers.dfy` — `Option`.
- `sleep_groups.dfy` — `SleepGroups`: the table as an insertion-ordered Python dict, a subset
  type `Table` over `Dict(keys, flags)`. It has `dict.get(g, False)` (`IsSleepGroup`),
  `d[g] = v` (`Put`), the comprehension that keeps the restricted groups (`OnKeys`,
  `SleepGroupIds`), and lemmas about them.
- `triggers.dfy` — `Triggers`: the three `^#?…$` patterns as string predicates.
- `policy.dfy` — `Policy`: the event, the replies, and each handler's decision as a function
  of the table and the event. It also has load and save over an abstract file content, and
  the lemmas for the plugin's promises.
- `plugin.dfy` — `Plugin`: the class `OnlyListenToMe`. Its fields `sleepGroups` (the table)
  and `dataFile` (the backing file) are updated in place. Each handler is a method proved
  against the matching `Policy` function.

Two details of the code are modelled as written:

- `^#?w$` is not a strict full-message match. Without MULTILINE, Python's `$` also matches
  just before one final newline, so `只听我的\n` and `#只听我的\n` trigger too.
  `Triggers.MatchesWord` models that.
- `if not group_id` treats the empty string like a missing id (`Policy.InGroup`). The gate
  and the enable and disable commands ignore such messages. The list command never reads
  the group id, so it replies to an admin with or without a group.

## Model

| member | source | states |
|---|---|---|
| `SleepGroups.Empty` | main.py:30-32 | the fresh table lists no keys and restricts no group |
| `SleepGroups.IsSleepGroup` | main.py:56-58 | a group reads as restricted only if it is a key of the table, and then it reads as its stored flag; an absent group reads as open |
| `SleepGroups.Put` | main.py:108-109 | `d[g] = v` gives g the flag v and leaves every other group's presence and flag as they were; the key order is unchanged, or g is appended when it was new |
| `SleepGroups.OnKeys` | main.py:153 | the filtered list is no longer than the keys, and holds only keys whose flag is true |
| `SleepGroups.OnKeysComplete` | main.py:153 | every key whose flag is true is in the filtered list |
| `SleepGroups.OnKeysNoDuplicates` | main.py:153 | filtering keys without duplicates gives a list without duplicates |
| `SleepGroups.OnKeysAppend` | main.py:153 | filtering keeps table order: the filter of `a + b` is the filter of `a` followed by the filter of `b` |
| `SleepGroups.SleepGroupIds` | main.py:153 | the comprehension over the table lists only restricted groups and is no longer than the key list; `SleepGroupIdsExactly` gives the converse |
| `SleepGroups.SleepGroupIdsExactly` | main.py:153-156 | the listing holds exactly the restricted groups, each once, and is empty exactly when no group is restricted |
| `SleepGroups.PutNewGroupAppends` | main.py:108-109 | restricting a group never held before appends it to the end of the listing |
| `SleepGroups.OnKeysAround` | main.py:153 | with the keys split around one key g, the listing is the groups before g, then g if its flag is true, then the groups after g |
| `SleepGroups.PutExistingGroupInPlace` | main.py:135-136 | setting the flag of a key already present changes only that key's slot in the listing: the groups before and after it keep their order, and g is listed in its place exactly when the new flag is true; so disable yields the old listing with g removed |
| `SleepGroups.PutExistingGroupKeepsOthers` | main.py:135-136 | setting the flag of a key already present keeps the key order, and every other group stays in or out of the listing as before |
| `Triggers.MatchesWord` | main.py:88 | a match means the text is the word plus at most two characters, and the word starts the text or follows a leading `#` |
| `Triggers.MatchesWordExactly` | main.py:88 | `^#?w$` matches exactly `w`, `#w`, `w\n` and `#w\n` |
| `Triggers.IsEnableCommand` | main.py:88 | a text triggers enable exactly when removing one leading `#` and one final newline leaves `只听我的` |
| `Triggers.IsDisableCommand` | main.py:115 | a text triggers disable exactly when removing one leading `#` and one final newline leaves `听大家的` |
| `Triggers.IsListCommand` | main.py:142 | a text triggers list exactly when removing one leading `#` and one final newline leaves `屏蔽列表` or `屏蔽群列表` |
| `Triggers.StrippedMatches` | main.py:88 | for a word not starting with `#` nor ending in a newline, a text matches `^#?w$` exactly when it strips to the word |
| `Triggers.MatchedWordIsStripped` | main.py:88 | for a word not starting with `#` nor ending in a newline, any text it matches gives back the word once one leading `#` and one final newline are removed |
| `Triggers.CommandsExclusive` | main.py:88-142 | no text triggers two of the enable, disable and list commands |
| `Triggers.CommandWordsTrigger` | main.py:88-142 | each command word triggers its command, bare and after `#`; both list words do |
| `Policy.InGroup` | main.py:73-75 | a message counts as in a group exactly when its group id is neither missing nor the empty string, as Python's `not group_id` decides |
| `Policy.Suppressed` | main.py:73-86 | the gate's decision: a stopped message has a group id that is a key of the table and a sender who is not admin |
| `Policy.GateSuppressesExactly` | main.py:73-86 | the gate stops a message if and only if it has a non-empty group id, that group's stored flag is true, and the sender is not admin |
| `Policy.GateLetsThrough` | main.py:73-83 | messages from admins, messages outside groups, and messages from groups absent from the table are never stopped |
| `Policy.Enable` | main.py:96-113 | the command replies exactly when an admin sends it in a group, saves exactly when it confirms, changes nothing unless it saves, and after any reply the group is restricted |
| `Policy.Disable` | main.py:123-140 | the command replies exactly when an admin sends it in a group, saves exactly when it confirms, changes nothing unless it saves, and after any reply the group is open |
| `Policy.CommandsIgnoreOthers` | main.py:97-102 | a non-admin sender, or a message without a group id, gets no reply from enable or disable; the table is unchanged and nothing is saved |
| `Policy.RepeatedCommandRefused` | main.py:104-106 | enable on a restricted group, and disable on an open or absent group, reply with the refusal, leave the table as it is and do not save |
| `Policy.EnableSucceeds` | main.py:108-113 | a successful enable confirms, saves, restricts the group, and leaves every other group's presence and flag alone |
| `Policy.DisableSucceeds` | main.py:135-140 | a successful disable confirms and saves; it stores `False` under the key rather than deleting it, keeps the key order, and leaves every other group alone |
| `Policy.EnableThenDisable` | main.py:108-140 | enable then disable by an admin opens the group again, and every group reads as it did before the enable |
| `Policy.EnableTwice` | main.py:104-113 | a second enable in a row replies with the refusal and leaves the table unchanged, with no save |
| `Policy.List` | main.py:149-163 | only an admin gets a reply; the "none" reply comes exactly when no group is restricted; otherwise the listing holds exactly the restricted groups, without duplicates |
| `Policy.Loaded` | main.py:36-46 | a load yields a non-empty table only when the file holds a JSON object, and then the table is that object |
| `Policy.LoadedCases` | main.py:36-46 | a missing file, a file that fails to read or parse, or a JSON value that is not an object all load as the empty table; a JSON object loads as itself |
| `Policy.Saved` | main.py:48-54 | a successful write leaves the file holding a JSON object |
| `Policy.SaveThenLoad` | main.py:36-54 | a successful save followed by a load, as on a restart, gives back the same table and the same flag for every group |
| `Policy.GateScenario` | main.py:73-140 | group "100" lets everyone through; after an admin enables it, only admins get through; after disable, everyone does again |
| `Policy.ListScenario` | main.py:104-163 | from an empty table, enabling a and c and then disabling b (which refuses) lists exactly a then c |
| `Plugin.OnlyListenToMe.constructor` | main.py:21-32 | the plugin starts with an empty table, whatever the file holds |
| `Plugin.OnlyListenToMe.LoadData` | main.py:34-46 | the table becomes the loaded content of the file, which is empty unless the file holds a JSON object |
| `Plugin.OnlyListenToMe.SaveData` | main.py:48-54 | only the file changes; after a successful write it loads back as the current table; after a failure the file is what the failed write left |
| `Plugin.OnlyListenToMe.OnGroupMessage` | main.py:66-86 | the message is stopped exactly when `Policy.Suppressed` holds; the method changes nothing |
| `Plugin.OnlyListenToMe.EnableOwnerOnly` | main.py:88-113 | the reply and the new table are those of `Policy.Enable`; the file is overwritten only when the table changed |
| `Plugin.OnlyListenToMe.DisableOwnerOnly` | main.py:115-140 | the reply and the new table are those of `Policy.Disable`; the file is overwritten only when the table changed |
| `Plugin.OnlyListenToMe.ListSleepGroups` | main.py:142-163 | one pass over the keys in table order gives the reply of `Policy.List`; the method changes nothing |

## Left out

- File and JSON I/O (`os.makedirs`, `open`, `json.load`, `json.dump` with indentation and
  `ensure_ascii=False`, the data directory) are foreign calls. The file is the value
  `DataFile` (missing, unreadable, or holding a parsed JSON value). A write's outcome is the
  parameter `WriteResult`, and a failed write may leave the file in any state.
- The JSON text encoding is not modelled. A JSON object with duplicate keys, or with values
  that are not booleans, is outside the model: a parsed object is a well-formed table of
  flags. Python truthiness of non-boolean stored values is not modelled.
- Logging is a side effect only and is left out.
- The host machinery is external dispatch and is left out: handler registration and the
  gate's priority, async generators and `yield`, `plain_result`, `stop_event`, `is_admin`,
  `get_group_id`, `terminate`, and the unused `config`. Admin status and the group id are
  inputs; the reply and the stop decision are outputs.
- The exact reply wording and the bullet lines of the listing message are left out. The
  listing reply carries the sequence of group ids, in the order the message prints them.
- Concurrency is left out: the host runs one handler at a time.
