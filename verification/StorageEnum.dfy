/** Enumeration of storage devices through the U-Boot API: API_dev_enum in
    u-boot-2018.09/api/api.c drives the per-group state machine of
    u-boot-2018.09/api/api_storage.c with nothing but a cookie. */
module StorageEnum {

  /** A device slot of a group, as blk_get_dev sees it. */
  datatype Slot = Absent | Present(active: bool)

  /** A storage group (IDE, USB, ...); one that is not configured has no slots. */
  datatype Group = Group(configured: bool, slots: seq<Slot>)

  /** What a caller holds between calls: nothing, a network device, or a storage device. */
  datatype Cookie = Null | Net | Dev(group: int, index: int)

  ghost predicate WellFormed(groups: seq<Group>) {
    forall g :: 0 <= g < |groups| && !groups[g].configured ==> groups[g].slots == []
  }

  // ----- the sequence a caller gets to see -----

  /** The devices returned when group `g` is searched from slot `i` on. A device that is present
      but not active ends the group, and leaves its cookie behind for the next one. */
  function ListIn(groups: seq<Group>, g: nat, i: nat): seq<Cookie>
    requires g < |groups| && i <= |groups[g].slots|
    decreases |groups| - g, 1, |groups[g].slots| - i
  {
    if i == |groups[g].slots| then ListFrom(groups, g + 1, false)
    else match groups[g].slots[i]
         case Absent => ListIn(groups, g, i + 1)
         case Present(active) =>
           if active then [Dev(g, i)] + ListIn(groups, g, i + 1) else ListFrom(groups, g + 1, true)
  }

  /** The devices returned from group `g` on. With a foreign cookie the first configured group
      looks for that cookie among its own devices and ends empty-handed. */
  function ListFrom(groups: seq<Group>, g: nat, foreign: bool): seq<Cookie>
    requires g <= |groups|
    decreases |groups| - g, 2, 0
  {
    if g == |groups| then []
    else if foreign then ListFrom(groups, g + 1, !groups[g].configured)
    else ListIn(groups, g, 0)
  }

  /** Everything a caller sees from a null cookie on: the network device if there is one, then
      the storage devices. */
  function All(groups: seq<Group>, net: bool): seq<Cookie> {
    if net then [Net] + ListFrom(groups, 0, true) else ListFrom(groups, 0, false)
  }

  /** The active devices, in order of group and index. */
  function ActiveIn(groups: seq<Group>, g: nat, i: nat): seq<Cookie>
    requires g < |groups| && i <= |groups[g].slots|
    decreases |groups| - g, 1, |groups[g].slots| - i
  {
    if i == |groups[g].slots| then ActiveFrom(groups, g + 1)
    else (if groups[g].slots[i] == Present(true) then [Dev(g, i)] else []) + ActiveIn(groups, g, i + 1)
  }

  function ActiveFrom(groups: seq<Group>, g: nat): seq<Cookie>
    requires g <= |groups|
    decreases |groups| - g, 2, 0
  {
    if g == |groups| then [] else ActiveIn(groups, g, 0)
  }

  // ----- when the enumeration is complete -----

  predicate NoneActive(slots: seq<Slot>, i: nat)
    requires i <= |slots|
  {
    forall k :: i <= k < |slots| ==> slots[k] != Present(true)
  }

  /** No active device is hidden: none follows an inactive one in its group, and none is in the
      configured group after a group that stopped at an inactive one. */
  predicate ClearIn(groups: seq<Group>, g: nat, i: nat)
    requires g < |groups| && i <= |groups[g].slots|
    decreases |groups| - g, 1, |groups[g].slots| - i
  {
    if i == |groups[g].slots| then ClearFrom(groups, g + 1, false)
    else if groups[g].slots[i] == Present(false) then NoneActive(groups[g].slots, i + 1) && ClearFrom(groups, g + 1, true)
    else ClearIn(groups, g, i + 1)
  }

  predicate ClearFrom(groups: seq<Group>, g: nat, foreign: bool)
    requires g <= |groups|
    decreases |groups| - g, 2, 0
  {
    g == |groups| ||
    if foreign then NoneActive(groups[g].slots, 0) && ClearFrom(groups, g + 1, !groups[g].configured)
    else ClearIn(groups, g, 0)
  }

  lemma {:induction false} ActiveInNone(groups: seq<Group>, g: nat, i: nat)
    requires g < |groups| && i <= |groups[g].slots|
    ensures |ActiveIn(groups, g, i)| >= |ActiveFrom(groups, g + 1)|
    ensures NoneActive(groups[g].slots, i) ==> ActiveIn(groups, g, i) == ActiveFrom(groups, g + 1)
    ensures !NoneActive(groups[g].slots, i) ==> |ActiveIn(groups, g, i)| > |ActiveFrom(groups, g + 1)|
    decreases |groups[g].slots| - i
  {
    if i < |groups[g].slots| { ActiveInNone(groups, g, i + 1); }
  }

  lemma {:induction false} ListInExact(groups: seq<Group>, g: nat, i: nat)
    requires WellFormed(groups) && g < |groups| && i <= |groups[g].slots|
    ensures |ListIn(groups, g, i)| <= |ActiveIn(groups, g, i)|
    ensures ListIn(groups, g, i) == ActiveIn(groups, g, i) <==> ClearIn(groups, g, i)
    decreases |groups| - g, 1, |groups[g].slots| - i
  {
    if i == |groups[g].slots| {
      ListFromExact(groups, g + 1, false);
    } else if groups[g].slots[i] == Present(false) {
      ListFromExact(groups, g + 1, true);
      ActiveInNone(groups, g, i + 1);
    } else {
      ListInExact(groups, g, i + 1);
      if groups[g].slots[i] == Present(true) {
        var list, active := ListIn(groups, g, i), ActiveIn(groups, g, i);
        assert list[1..] == ListIn(groups, g, i + 1) && active[1..] == ActiveIn(groups, g, i + 1);
      }
    }
  }

  lemma {:induction false} ListFromExact(groups: seq<Group>, g: nat, foreign: bool)
    requires WellFormed(groups) && g <= |groups|
    ensures |ListFrom(groups, g, foreign)| <= |ActiveFrom(groups, g)|
    ensures ListFrom(groups, g, foreign) == ActiveFrom(groups, g) <==> ClearFrom(groups, g, foreign)
    decreases |groups| - g, 2, 0
  {
    if g < |groups| {
      if foreign {
        ListFromExact(groups, g + 1, !groups[g].configured);
        ActiveInNone(groups, g, 0);
      } else {
        ListInExact(groups, g, 0);
      }
    }
  }

  lemma {:induction false} AllActiveIsClearIn(groups: seq<Group>, g: nat, i: nat)
    requires g < |groups| && i <= |groups[g].slots|
    requires forall h, k :: 0 <= h < |groups| && 0 <= k < |groups[h].slots| ==> groups[h].slots[k] != Present(false)
    ensures ClearIn(groups, g, i)
    decreases |groups| - g, |groups[g].slots| - i
  {
    if i < |groups[g].slots| { AllActiveIsClearIn(groups, g, i + 1); }
    else if g + 1 < |groups| { AllActiveIsClearIn(groups, g + 1, 0); }
  }

  /** With no network device, the enumeration returns every active device exactly when none is
      hidden; in particular whenever all devices that are present are active. */
  lemma EnumerationCompleteIff(groups: seq<Group>)
    requires WellFormed(groups)
    ensures All(groups, false) == ActiveFrom(groups, 0) <==> ClearFrom(groups, 0, false)
    ensures (forall h, k :: 0 <= h < |groups| && 0 <= k < |groups[h].slots| ==> groups[h].slots[k] != Present(false)) ==>
              All(groups, false) == ActiveFrom(groups, 0)
  {
    ListFromExact(groups, 0, false);
    if groups != [] && forall h, k :: 0 <= h < |groups| && 0 <= k < |groups[h].slots| ==> groups[h].slots[k] != Present(false) {
      AllActiveIsClearIn(groups, 0, 0);
    }
  }

  /** With a network device, which is returned first, the storage devices are complete exactly
      when nothing is hidden by its foreign cookie. */
  lemma EnumerationAfterNetCompleteIff(groups: seq<Group>)
    requires WellFormed(groups)
    ensures All(groups, true) == [Net] + ActiveFrom(groups, 0) <==> ClearFrom(groups, 0, true)
  {
    ListFromExact(groups, 0, true);
    assert All(groups, true)[1..] == ListFrom(groups, 0, true) && ([Net] + ActiveFrom(groups, 0))[1..] == ActiveFrom(groups, 0);
  }

  // ----- what the lists hold -----

  predicate IsActive(groups: seq<Group>, c: Cookie) {
    && c.Dev? && 0 <= c.group < |groups| && 0 <= c.index < |groups[c.group].slots|
    && groups[c.group].slots[c.index] == Present(true)
  }

  predicate Before(c: Cookie, d: Cookie) {
    c.Dev? && d.Dev? && (c.group < d.group || (c.group == d.group && c.index < d.index))
  }

  predicate NotBefore(c: Cookie, g: int, i: int) {
    c.Dev? && (c.group > g || (c.group == g && c.index >= i))
  }

  /** Active devices from slot `i` of group `g` on, each at most once, by group and index. */
  ghost predicate Ascends(groups: seq<Group>, list: seq<Cookie>, g: int, i: int) {
    && (forall k :: 0 <= k < |list| ==> IsActive(groups, list[k]) && NotBefore(list[k], g, i))
    && forall j, k :: 0 <= j < k < |list| ==> Before(list[j], list[k])
  }

  lemma AscendsWith(groups: seq<Group>, list: seq<Cookie>, g: int, i: int)
    requires Ascends(groups, list, g, i + 1) && IsActive(groups, Dev(g, i))
    ensures Ascends(groups, [Dev(g, i)] + list, g, i)
  {}

  lemma AscendsFrom(groups: seq<Group>, list: seq<Cookie>, g: int, i: int, g': int, i': int)
    requires Ascends(groups, list, g', i') && (g' > g || (g' == g && i' >= i))
    ensures Ascends(groups, list, g, i)
  {}

  lemma {:induction false} ListInAscends(groups: seq<Group>, g: nat, i: nat)
    requires g < |groups| && i <= |groups[g].slots|
    ensures Ascends(groups, ListIn(groups, g, i), g, i)
    decreases |groups| - g, 1, |groups[g].slots| - i
  {
    if i == |groups[g].slots| {
      ListFromAscends(groups, g + 1, false);
      AscendsFrom(groups, ListIn(groups, g, i), g, i, g + 1, 0);
    } else if groups[g].slots[i] == Present(false) {
      ListFromAscends(groups, g + 1, true);
      AscendsFrom(groups, ListIn(groups, g, i), g, i, g + 1, 0);
    } else {
      ListInAscends(groups, g, i + 1);
      if groups[g].slots[i] == Present(true) {
        AscendsWith(groups, ListIn(groups, g, i + 1), g, i);
      } else {
        AscendsFrom(groups, ListIn(groups, g, i), g, i, g, i + 1);
      }
    }
  }

  /** Whatever is hidden, what is returned are active devices, each once, in order. */
  lemma {:induction false} ListFromAscends(groups: seq<Group>, g: nat, foreign: bool)
    requires g <= |groups|
    ensures Ascends(groups, ListFrom(groups, g, foreign), g, 0)
    decreases |groups| - g, 2, 0
  {
    if g < |groups| {
      if foreign {
        ListFromAscends(groups, g + 1, !groups[g].configured);
        AscendsFrom(groups, ListFrom(groups, g, foreign), g, 0, g + 1, 0);
      } else {
        ListInAscends(groups, g, 0);
      }
    }
  }

  lemma {:induction false} ActiveInHas(groups: seq<Group>, g: nat, i: nat, c: Cookie)
    requires g < |groups| && i <= |groups[g].slots|
    ensures c in ActiveIn(groups, g, i) <==> IsActive(groups, c) && NotBefore(c, g, i)
    decreases |groups| - g, 1, |groups[g].slots| - i
  {
    if i == |groups[g].slots| {
      ActiveFromHas(groups, g + 1, c);
    } else {
      ActiveInHas(groups, g, i + 1, c);
    }
  }

  /** The list of active devices has every active device and nothing else. */
  lemma {:induction false} ActiveFromHas(groups: seq<Group>, g: nat, c: Cookie)
    requires g <= |groups|
    ensures c in ActiveFrom(groups, g) <==> IsActive(groups, c) && NotBefore(c, g, 0)
    decreases |groups| - g, 2, 0
  {
    if g < |groups| {
      ActiveInHas(groups, g, 0, c);
    }
  }

  lemma {:induction false} ActiveInAscends(groups: seq<Group>, g: nat, i: nat)
    requires g < |groups| && i <= |groups[g].slots|
    ensures Ascends(groups, ActiveIn(groups, g, i), g, i)
    decreases |groups| - g, 1, |groups[g].slots| - i
  {
    if i == |groups[g].slots| {
      ActiveFromAscends(groups, g + 1);
      AscendsFrom(groups, ActiveIn(groups, g, i), g, i, g + 1, 0);
    } else {
      ActiveInAscends(groups, g, i + 1);
      if groups[g].slots[i] == Present(true) {
        AscendsWith(groups, ActiveIn(groups, g, i + 1), g, i);
      } else {
        assert ActiveIn(groups, g, i) == ActiveIn(groups, g, i + 1);
        AscendsFrom(groups, ActiveIn(groups, g, i), g, i, g, i + 1);
      }
    }
  }

  /** The list of active devices has each of them once, by group and index. */
  lemma {:induction false} ActiveFromAscends(groups: seq<Group>, g: nat)
    requires g <= |groups|
    ensures Ascends(groups, ActiveFrom(groups, g), g, 0)
    decreases |groups| - g, 2, 0
  {
    if g < |groups| {
      ActiveInAscends(groups, g, 0);
    }
  }

  /** With the network device's cookie the first configured group `g` returns nothing, however many
      active devices it has, and the groups after it start over. */
  lemma {:induction false} NetHidesFirstGroup(groups: seq<Group>, g: nat, c: Cookie)
    requires g < |groups| && groups[g].configured && forall h :: 0 <= h < g ==> !groups[h].configured
    ensures All(groups, true) == [Net] + ListFrom(groups, g + 1, false)
    ensures c.Dev? && c.group <= g ==> c !in All(groups, true)
  {
    ForeignSkips(groups, 0, g);
    ListFromAscends(groups, g + 1, false);
  }

  lemma {:induction false} ForeignSkips(groups: seq<Group>, h: nat, g: nat)
    requires h <= g < |groups| && groups[g].configured && forall k :: h <= k < g ==> !groups[k].configured
    ensures ListFrom(groups, h, true) == ListFrom(groups, g + 1, false)
    decreases g - h
  {
    if h < g {
      ForeignSkips(groups, h + 1, g);
    }
  }

  // ----- from one cookie to the next -----

  function Head(list: seq<Cookie>): Cookie {
    if list == [] then Null else list[0]
  }

  /** What remains to be returned after the caller got `c`. */
  function Remaining(groups: seq<Group>, c: Cookie): seq<Cookie>
    requires c.Dev? ==> 0 <= c.group < |groups| && 0 <= c.index < |groups[c.group].slots|
  {
    match c
    case Null => []
    case Net => ListFrom(groups, 0, true)
    case Dev(g, i) => ListIn(groups, g, i + 1)
  }

  ghost predicate IsDevice(groups: seq<Group>, c: Cookie) {
    c.Dev? && 0 <= c.group < |groups| && 0 <= c.index < |groups[c.group].slots| && groups[c.group].slots[c.index].Present?
  }

  lemma {:induction false} ListInTail(groups: seq<Group>, g: nat, i: nat)
    requires g < |groups| && i <= |groups[g].slots|
    ensures var list := ListIn(groups, g, i);
            list != [] ==> IsDevice(groups, list[0]) && Remaining(groups, list[0]) == list[1..]
    decreases |groups| - g, 1, |groups[g].slots| - i
  {
    if i == |groups[g].slots| {
      ListFromTail(groups, g + 1, false);
    } else {
      match groups[g].slots[i]
      case Absent => ListInTail(groups, g, i + 1);
      case Present(active) => if !active { ListFromTail(groups, g + 1, true); }
    }
  }

  lemma {:induction false} ListFromTail(groups: seq<Group>, g: nat, foreign: bool)
    requires g <= |groups|
    ensures var list := ListFrom(groups, g, foreign);
            list != [] ==> IsDevice(groups, list[0]) && Remaining(groups, list[0]) == list[1..]
    decreases |groups| - g, 2, 0
  {
    if g < |groups| {
      if foreign { ListFromTail(groups, g + 1, !groups[g].configured); } else { ListInTail(groups, g, 0); }
    }
  }

  function FirstPresent(slots: seq<Slot>, i: nat): (j: nat)
    requires i <= |slots|
    ensures i <= j <= |slots| && (forall k :: i <= k < j ==> slots[k] == Absent) && (j < |slots| ==> slots[j].Present?)
    decreases |slots| - i
  {
    if i == |slots| || slots[i].Present? then i else FirstPresent(slots, i + 1)
  }

  lemma {:induction false} ListInSkips(groups: seq<Group>, g: nat, i: nat)
    requires g < |groups| && i <= |groups[g].slots|
    ensures ListIn(groups, g, i) == ListIn(groups, g, FirstPresent(groups[g].slots, i))
    decreases |groups[g].slots| - i
  {
    if i < |groups[g].slots| && groups[g].slots[i] == Absent { ListInSkips(groups, g, i + 1); }
  }

  // ----- the code -----

  /** specs[] with its enumeration flags, and the caller's cookie. */
  class Enumeration {
    const groups: seq<Group>
    var started: seq<bool>
    var ended: seq<bool>
    var cookie: Cookie

    constructor (groups: seq<Group>)
      requires WellFormed(groups)
      ensures this.groups == groups && Valid() && cookie == Null
    {
      this.groups := groups;
      started, ended := seq(|groups|, _ => false), seq(|groups|, _ => false);
      cookie := Null;
    }

    ghost predicate Valid()
      reads this
    {
      && WellFormed(groups) && |started| == |groups| == |ended|
      && (cookie.Dev? ==> IsDevice(groups, cookie))
    }

    /** Groups from `g` on have not been touched. */
    ghost predicate Untouched(g: int)
      reads this
    {
      |started| == |groups| == |ended| && forall h :: g <= h < |groups| && 0 <= h ==> !started[h] && !ended[h]
    }

    /** Groups below `g` will return nothing more, unless asked with a cookie of their own. */
    ghost predicate Passed(g: int)
      reads this
    {
      |started| == |groups| == |ended| && forall h :: 0 <= h < g && h < |groups| ==> started[h] || ended[h]
    }

    /** The state in which `cookie` has just been handed out. */
    ghost predicate HandedOut()
      reads this
    {
      Valid() &&
      match cookie
      case Null => true
      case Net => Untouched(0)
      case Dev(g, _) => Passed(g) && !ended[g] && started[g] && Untouched(g + 1)
    }

    /** blk_get_dev */
    function BlkGetDev(group: nat, index: nat): Cookie
      requires group < |groups| && index < |groups[group].slots|
    {
      if groups[group].slots[index].Present? then Dev(group, index) else Null
    }

    /** dev_stor_get */
    method StorGet(group: nat) returns (found: bool, more: bool)
      requires Valid() && group < |groups|
      modifies this`cookie
      ensures Valid()
      ensures !groups[group].configured ==> !found && !more && cookie == old(cookie)
      ensures groups[group].configured ==>
        var slots := groups[group].slots;
        var from: nat := if old(cookie) == Null then 0
                    else if old(cookie).Dev? && old(cookie).group == group then old(cookie).index + 1 else |slots|;
        var j := FirstPresent(slots, from);
        && more == (j < |slots|)
        && cookie == (if more then Dev(group, j) else Null)
        && found == (more && slots[j].active)
    {
      found, more := false, false;
      if !groups[group].configured { return; }
      var slots := groups[group].slots;
      var i: nat := 0;
      if cookie != Null {
        while i < |slots|
          invariant i <= |slots|
          invariant cookie.Dev? && cookie.group == group ==> i <= cookie.index
        {
          if cookie == BlkGetDev(group, i) {
            i := i + 1;
            break;
          }
          i := i + 1;
        }
      }
      ghost var from := i;
      while i < |slots|
        invariant from <= i <= |slots| && !found
        invariant FirstPresent(slots, from) == FirstPresent(slots, i)
        invariant cookie == old(cookie) || cookie == Null
      {
        cookie := BlkGetDev(group, i);
        if cookie != Null {
          found := true;
          break;
        }
        i := i + 1;
      }
      more := i != |slots|;
      if found {
        if !slots[i].active { found := false; }
      } else {
        cookie := Null;
      }
    }

    /** dev_stor_type: the group of a device, or the number of groups if it is in none. */
    method StorType() returns (group: nat)
      requires Valid() && cookie != Null
      ensures group == if cookie.Dev? then cookie.group else |groups|
    {
      group := 0;
      while group < |groups|
        invariant group <= |groups| && (cookie.Dev? ==> group <= cookie.group)
      {
        var j := 0;
        while j < |groups[group].slots|
          invariant 0 <= j <= |groups[group].slots|
          invariant cookie.Dev? && cookie.group == group ==> j <= cookie.index
        {
          if cookie == BlkGetDev(group, j) { return; }
          j := j + 1;
        }
        group := group + 1;
      }
    }

    ghost predicate Own(c: Cookie, group: int) {
      c.Dev? && c.group == group
    }

    /** dev_enum_stor: a group answers for itself only with no cookie, with its own cookie, or,
        once and in vain, with a foreign one. */
    method EnumStor(group: nat) returns (found: bool)
      requires Valid() && group < |groups|
      modifies this
      ensures Valid()
      ensures forall h :: 0 <= h < |groups| && h != group ==> started[h] == old(started[h]) && ended[h] == old(ended[h])
      ensures started[group] ==
        (old(started[group]) || old(cookie) == Null || (!Own(old(cookie), group) && !old(ended[group])))
      ensures old(cookie) != Null && old(ended[group]) ==>
        !found && cookie == old(cookie) && ended[group]
      ensures old(cookie) != Null && !Own(old(cookie), group) && !old(ended[group]) ==>
        && !found && ended[group]
        && cookie == if old(started[group]) || !groups[group].configured then old(cookie) else Null
      ensures old(cookie) == Null || (Own(old(cookie), group) && !old(ended[group]) && groups[group].configured) ==>
        var slots := groups[group].slots;
        var j := FirstPresent(slots, if old(cookie) == Null then 0 else old(cookie).index + 1);
        && cookie == (if j < |slots| then Dev(group, j) else Null)
        && found == (j < |slots| && slots[j].active) && ended[group] == (j == |slots|)
    {
      found := false;
      var more := false;
      if cookie == Null {
        found, more := StorGet(group);
        started := started[group := true];
      } else {
        var kind := StorType();
        if kind == group {
          if ended[group] { return false; }
          found, more := StorGet(group);
        } else {
          if ended[group] { return false; }
          if !started[group] {
            started := started[group := true];
            found, more := StorGet(group);
          } else {
            found, more := false, false;
          }
        }
      }
      ended := ended[group := !more];
    }

    /** dev_enum_reset */
    method EnumReset()
      requires Valid()
      modifies this`started, this`ended
      ensures Valid() && Untouched(0)
    {
      for i := 0 to |groups|
        invariant Valid() && forall h :: 0 <= h < i ==> !started[h] && !ended[h]
      {
        started := started[i := false];
        ended := ended[i := false];
      }
    }

    /** Where the walk over the groups stands before group `i`: it has either not reached the
        group of the caller's cookie, or passed it, and then `list` is what lies ahead. */
    ghost predicate Walking(i: nat, list: seq<Cookie>, c: Cookie)
      reads this
    {
      Valid() && i <= |groups| &&
      if c.Dev? && i <= c.group then HandedOut() && cookie == c && list == Remaining(groups, c)
      else Passed(i) && Untouched(i) && (cookie.Dev? ==> cookie.group < i) && list == ListFrom(groups, i, cookie != Null)
    }

    method EnumGroup(i: nat, ghost list: seq<Cookie>, ghost c: Cookie) returns (found: bool)
      requires Walking(i, list, c) && i < |groups|
      modifies this
      ensures found ==> HandedOut() && list != [] && cookie == list[0]
      ensures !found ==> Walking(i + 1, list, c)
    {
      ListInSkips(groups, i, if cookie.Dev? && cookie.group == i then cookie.index + 1 else 0);
      found := EnumStor(i);
    }

    /** dev_enum_storage */
    method EnumStorage(ghost list: seq<Cookie>) returns (found: bool)
      requires HandedOut() && (cookie == Null ==> Untouched(0))
      requires list == if cookie == Null then ListFrom(groups, 0, false) else Remaining(groups, cookie)
      modifies this
      ensures Valid()
      ensures found ==> HandedOut() && list != [] && cookie == list[0]
      ensures !found ==> list == []
    {
      ghost var c := cookie;
      for i := 0 to |groups|
        invariant Walking(i, list, c)
      {
        found := EnumGroup(i, list, c);
        if found { return true; }
      }
      found := false;
    }

    /** API_dev_enum, told whether there is a network device: from a null cookie it starts over,
        and each call hands out the next element of the list. */
    method DevEnum(net: bool)
      requires HandedOut()
      modifies this
      ensures HandedOut()
      ensures var list := if old(cookie) != Null then Remaining(groups, old(cookie)) else All(groups, net);
              cookie == Head(list) && (list != [] ==> cookie != Null && Remaining(groups, cookie) == list[1..])
    {
      ghost var list := if cookie != Null then Remaining(groups, cookie) else All(groups, net);
      if cookie == Null {
        EnumReset();
        if net {
          cookie := Net;
          return;
        }
      }
      if cookie.Dev? { ListInTail(groups, cookie.group, cookie.index + 1); } else { ListFromTail(groups, 0, cookie == Net); }
      var found := EnumStorage(list);
      if !found { cookie := Null; }
    }
  }

  /** The list ahead of a caller: the cookie it holds is the head of `list`. */
  ghost predicate Ahead(e: Enumeration, list: seq<Cookie>)
    reads e
  {
    && e.HandedOut() && e.cookie == Head(list)
    && (list != [] ==> e.cookie != Null && Remaining(e.groups, e.cookie) == list[1..])
  }

  method Advance(e: Enumeration, net: bool, ghost list: seq<Cookie>)
    requires Ahead(e, list) && list != []
    modifies e
    ensures Ahead(e, list[1..])
  {
    e.DevEnum(net);
  }

  method Start(e: Enumeration, net: bool)
    requires e.HandedOut() && e.cookie == Null
    modifies e
    ensures Ahead(e, All(e.groups, net))
  {
    e.DevEnum(net);
  }

  /** A caller that keeps calling until it gets the null cookie back. */
  method EnumerateAll(e: Enumeration, net: bool) returns (seen: seq<Cookie>)
    requires e.HandedOut() && e.cookie == Null
    modifies e
    ensures e.HandedOut() && e.cookie == Null
    ensures seen == All(e.groups, net)
  {
    seen := [];
    ghost var list := All(e.groups, net);
    Start(e, net);
    ghost var rest := list;
    while e.cookie != Null
      invariant Ahead(e, rest) && seen + rest == list
      decreases |rest|
    {
      assert seen + [rest[0]] + rest[1..] == seen + rest;
      seen := seen + [e.cookie];
      Advance(e, net, rest);
      rest := rest[1..];
    }
    assert rest == [];
  }
}
