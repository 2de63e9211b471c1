/** `allocate_session_number`: the next workspace slot for a project, from the worktree
    directory and the `sessions` table. */
module Slots {
  import opened Base
  import opened Codecs
  import opened Tables

  /** Slot a directory entry under `.claude/worktrees` occupies for project `name`. */
  function EntrySlot(entry: string, name: string): (r: Option<int>)
    ensures r.Some? ==> 0 <= r.value <= U32_MAX
  {
    if StartsWith(entry, name + "-") then ParseU32(entry[|name| + 1..]) else None
  }

  /** An entry takes slot `k` exactly when it is the name, a dash and that number. */
  lemma EntrySlotExact(entry: string, name: string, k: int)
    ensures EntrySlot(entry, name) == Some(k)
       <==> k <= U32_MAX && exists text :: entry == name + "-" + text && ReadsAs(text, k)
  {
    if EntrySlot(entry, name) == Some(k) {
      var text := entry[|name| + 1..];
      ParseU32Exact(text, k);
      assert entry == name + "-" + text;
    }
    if text :| entry == name + "-" + text && ReadsAs(text, k) {
      assert entry[..|name| + 1] == name + "-" && entry[|name| + 1..] == text;
      ParseU32Exact(text, k);
    }
  }

  /** Slots stored for a project are `u32` values. */
  predicate SlotsFit(sessions: seq<Session>)
  {
    forall i :: 0 <= i < |sessions| ==> 0 <= sessions[i].slot <= U32_MAX
  }

  ghost predicate EntryTakes(entries: seq<string>, name: string, k: int)
  {
    exists i :: 0 <= i < |entries| && EntrySlot(entries[i], name) == Some(k)
  }

  ghost predicate RowTakes(sessions: seq<Session>, name: string, k: int)
  {
    exists i :: 0 <= i < |sessions| && sessions[i].slug == name && sessions[i].slot == k
  }

  /** `top` is the greatest slot taken for `name`, or 0 when none above it is. */
  ghost predicate IsTop(entries: seq<string>, sessions: seq<Session>, name: string, top: int)
  {
    && 0 <= top <= U32_MAX
    && (forall k :: EntryTakes(entries, name, k) || RowTakes(sessions, name, k) ==> k <= top)
    && (top == 0 || EntryTakes(entries, name, top) || RowTakes(sessions, name, top))
  }

  /** One past `top` in `u32` arithmetic. */
  function Next(top: int): nat
    requires 0 <= top <= U32_MAX
  {
    if top == U32_MAX then 0 else top + 1
  }

  /** The directory scan, over the slot each entry parses to. */
  method MaxEntrySlot(slots: seq<Option<int>>) returns (max: int)
    ensures max >= 0 && forall i :: 0 <= i < |slots| && slots[i].Some? ==> slots[i].value <= max
    ensures max == 0 || Some(max) in slots
  {
    max := 0;
    for i := 0 to |slots|
      invariant max >= 0 && forall j :: 0 <= j < i && slots[j].Some? ==> slots[j].value <= max
      invariant max == 0 || Some(max) in slots
    {
      match slots[i] {
        case Some(n) => if n > max { max := n; }
        case None =>
      }
    }
  }

  /** `SELECT COALESCE(MAX(slot_number), 0) FROM sessions WHERE project_slug = ?`. */
  method MaxRowSlot(sessions: seq<Session>, name: string) returns (max: int)
    requires SlotsFit(sessions)
    ensures 0 <= max <= U32_MAX
    ensures forall k :: RowTakes(sessions, name, k) ==> k <= max
    ensures max == 0 || RowTakes(sessions, name, max)
  {
    max := 0;
    for i := 0 to |sessions|
      invariant 0 <= max <= U32_MAX
      invariant forall j :: 0 <= j < i && sessions[j].slug == name ==> sessions[j].slot <= max
      invariant max == 0 || RowTakes(sessions, name, max)
    {
      if sessions[i].slug == name && sessions[i].slot > max { max := sessions[i].slot; }
    }
  }

  method AllocateSessionNumber(entries: seq<string>, sessions: seq<Session>, name: string)
    returns (number: nat)
    requires SlotsFit(sessions)
    ensures exists top :: IsTop(entries, sessions, name, top) && number == Next(top)
  {
    var slots := seq(|entries|, i requires 0 <= i < |entries| => EntrySlot(entries[i], name));
    var max := MaxEntrySlot(slots);
    assert forall k :: EntryTakes(entries, name, k) <==> Some(k) in slots by {
      forall k | EntryTakes(entries, name, k) ensures Some(k) in slots {
        var i :| 0 <= i < |entries| && EntrySlot(entries[i], name) == Some(k);
        assert slots[i] == Some(k);
      }
      forall k | Some(k) in slots ensures EntryTakes(entries, name, k) {
        var i :| 0 <= i < |slots| && slots[i] == Some(k);
        assert EntrySlot(entries[i], name) == Some(k);
      }
    }
    var dbMax := MaxRowSlot(sessions, name);
    if dbMax > max { max := dbMax; }
    number := Next(max);
    assert IsTop(entries, sessions, name, max);
  }

  lemma EntryOfSession(entries: seq<string>, name: string, number: nat)
    requires SessionId(name, number) in entries && number <= U32_MAX
    ensures EntryTakes(entries, name, number)
  {
    var id := SessionId(name, number);
    assert id == (name + "-") + Dec(number);
    var i :| 0 <= i < |entries| && entries[i] == id;
    assert id[..|name| + 1] == name + "-" && id[|name| + 1..] == Dec(number);
    ParseDec(number, 0, U32_MAX);
    assert EntrySlot(entries[i], name) == Some(number);
  }

  /** Ids in the `sessions` table are the ids launch gave them. */
  predicate CanonicalIds(sessions: seq<Session>)
  {
    && SlotsFit(sessions)
    && forall i :: 0 <= i < |sessions| ==> sessions[i].id == SessionId(sessions[i].slug, sessions[i].slot)
  }

  ghost predicate IdInUse(entries: seq<string>, sessions: seq<Session>, id: string)
  {
    id in entries || exists i :: 0 <= i < |sessions| && sessions[i].id == id
  }

  /** The allocated id collides with no directory entry and no session row, except when
      slot 2^32-1 is taken and the wrapped-round id `{name}-0` is in use. */
  lemma AllocatedIdIsFresh(entries: seq<string>, sessions: seq<Session>, name: string, top: int)
    requires CanonicalIds(sessions) && IsTop(entries, sessions, name, top)
    ensures IdInUse(entries, sessions, SessionId(name, Next(top)))
       <==> top == U32_MAX && IdInUse(entries, sessions, SessionId(name, 0))
  {
    var number := Next(top);
    var id := SessionId(name, number);
    if top < U32_MAX {
      if id in entries { EntryOfSession(entries, name, number); }
      forall i | 0 <= i < |sessions| && sessions[i].id == id ensures RowTakes(sessions, name, number) {
        SessionIdInjective(sessions[i].slug, sessions[i].slot, name, number);
      }
      assert !IdInUse(entries, sessions, id);
    }
  }

  /** The exception is real: with the directories of slots 2^32-1 and 0 on disk, the allocated
      id is one of them. */
  lemma TopSlotWraps(name: string)
    ensures var entries := [SessionId(name, U32_MAX), SessionId(name, 0)];
            IsTop(entries, [], name, U32_MAX) && IdInUse(entries, [], SessionId(name, Next(U32_MAX)))
  {
    var entries := [SessionId(name, U32_MAX), SessionId(name, 0)];
    assert SessionId(name, 0) == entries[1];
    EntryOfSession(entries, name, U32_MAX);
  }
}
