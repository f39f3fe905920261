/**
 * The IPA v2 driver's interface registry and message queues
 * (drivers/platform/msm/ipa/ipa_v2/ipa_intf.c): logical interfaces
 * registered by name with their TX, RX and extended properties; the push
 * message FIFO that user space drains through ipa_read; the cache of WLAN
 * client connect events that is replayed on request; and the registry of
 * pull-message callbacks.
 *
 * The driver context is a class whose lists are sequences in list order.
 * Allocation failures, copy_to_user faults and the results of client
 * callbacks are inputs. Property records are opaque byte strings, and a
 * message payload is a value whose shape follows the message type.
 */
module IpaIntf {
  import opened Wrappers

  /** IPA_RESOURCE_NAME_MAX and IPA_NUM_PROPS_MAX of msm_ipa.h. */
  const ResourceNameMax: nat := 32
  const NumPropsMax: nat := 35
  /** sizeof(struct ipa_msg_meta): a type byte, a reserved byte and a
    * 16-bit length. */
  const MetaSize: nat := 4

  /** The two WLAN event numbers wlan_msg_process acts on, and the
    * header-attribute type that carries a MAC address (msm_ipa.h). */
  const WlanClientDisconnect: nat := 1
  const WlanClientConnectEx: nat := 10
  const AttribMacAddr: nat := 0

  /** An exception pipe: the default LAN consumer or the client given. */
  datatype Pipe = AppsLanCons | Client(id: nat)

  /** One property record, as the bytes of its ioctl structure. */
  type PropRecord = seq<bv8>

  /** The extended properties a client passes, with its exception pipe. */
  datatype ExtIntf = ExtIntf(props: seq<PropRecord>, excpPipeValid: bool, excpPipe: nat)

  /** A registered interface; the property counts are the lengths. */
  datatype Intf = Intf(name: seq<char>, tx: seq<PropRecord>, rx: seq<PropRecord>, ext: seq<PropRecord>,
                       excpPipe: Pipe)

  /** What ipa_query_intf reports. */
  datatype IntfCounts = IntfCounts(numTx: nat, numRx: nat, numExt: nat, excpPipe: Pipe)

  datatype PropKind = TxProps | RxProps | ExtProps

  datatype Meta = Meta(msgType: nat, msgLen: nat)

  /** A WLAN header attribute: its type and the MAC address it holds. */
  datatype WlanAttrib = WlanAttrib(attribType: nat, mac: seq<bv8>)

  /** A message payload: plain bytes, a connect event with its header
    * attributes, or a disconnect event with the client's MAC address. */
  datatype Payload = Bytes(data: seq<bv8>) | ConnectEx(attribs: seq<WlanAttrib>) | Disconnect(mac: seq<bv8>)

  /** A queued message; the payload is absent when none was copied. */
  datatype PushMsg = PushMsg(meta: Meta, buff: Option<Payload>)

  /** A registered pull message and the callback that produces it. */
  datatype PullMsg = PullMsg(meta: Meta, callback: nat)

  /** The allocation that fails, if any, in a registration or a send. */
  datatype RegisterAlloc = IntfAlloc | TxAlloc | RxAlloc | ExtAlloc
  datatype SendAlloc = MsgAlloc | DataAlloc | CacheAlloc | CacheDataAlloc

  /** How one pass of ipa_read ends. */
  datatype ReadOutcome = Copied(bytes: nat) | Fault | Again | Interrupted | Wait

  // ---------------------------------------------------------------
  // Names and lookups
  // ---------------------------------------------------------------

  /** strlcpy into a name buffer of IPA_RESOURCE_NAME_MAX bytes: at most
    * IPA_RESOURCE_NAME_MAX - 1 characters are kept. */
  function StoredName(name: seq<char>): (r: seq<char>)
    ensures |r| < ResourceNameMax && r <= name
    ensures |name| < ResourceNameMax ==> r == name
  {
    if |name| < ResourceNameMax then name else name[..ResourceNameMax - 1]
  }

  /** The position of the first interface with the name. */
  function FindIntf(list: seq<Intf>, name: seq<char>): (r: Option<nat>)
    ensures r.Some? ==> r.value < |list| && list[r.value].name == name
    ensures r.Some? ==> forall j :: 0 <= j < r.value ==> list[j].name != name
    ensures r.None? ==> forall j :: 0 <= j < |list| ==> list[j].name != name
  {
    if |list| == 0 then None
    else if list[0].name == name then Some(0)
    else match FindIntf(list[1..], name)
      case None => None
      case Some(k) => Some(k + 1)
  }

  /** The list without the entry at position i. */
  function Without<T>(list: seq<T>, i: nat): (r: seq<T>)
    requires i < |list|
    ensures |r| == |list| - 1
    ensures forall j :: 0 <= j < i ==> r[j] == list[j]
    ensures forall j :: i <= j < |r| ==> r[j] == list[j + 1]
  {
    list[..i] + list[i + 1..]
  }

  /** An interface appended under a new name is found at the end, and
    * removing it gives back the list it was added to. */
  lemma RegisterDeregisterRoundTrip(list: seq<Intf>, e: Intf)
    requires FindIntf(list, e.name).None?
    ensures FindIntf(list + [e], e.name) == Some(|list|)
    ensures Without(list + [e], |list|) == list
  {
    var l := list + [e];
    var r := FindIntf(l, e.name);
    assert l[|list|].name == e.name;
    assert r.Some? && r.value <= |list|;
  }

  /** Every stored name is shorter than the name buffer. */
  predicate NamesStored(list: seq<Intf>) {
    forall j :: 0 <= j < |list| ==> |list[j].name| < ResourceNameMax
  }

  /** Deregistration compares the stored names with the name as given: a
    * name of IPA_RESOURCE_NAME_MAX characters or more, which
    * registration accepted and truncated, is never found. */
  lemma LongNameNeverFound(list: seq<Intf>, name: seq<char>)
    requires NamesStored(list) && |name| >= ResourceNameMax
    ensures FindIntf(list, name).None?
  {
  }

  /** Truncating the name the same way registration did finds the
    * interface registered under it. */
  lemma StoredNameFound(list: seq<Intf>, e: Intf, name: seq<char>)
    requires e.name == StoredName(name) && FindIntf(list, e.name).None?
    ensures FindIntf(list + [e], StoredName(name)) == Some(|list|)
  {
    RegisterDeregisterRoundTrip(list, e);
  }

  /** The properties of one kind. */
  function PropsOf(e: Intf, kind: PropKind): seq<PropRecord> {
    match kind
    case TxProps => e.tx
    case RxProps => e.rx
    case ExtProps => e.ext
  }

  // ---------------------------------------------------------------
  // Queues
  // ---------------------------------------------------------------

  /** The message list's two ends: list_add_tail and list_first_entry
    * with list_del. */
  function Enqueue(q: seq<PushMsg>, m: PushMsg): seq<PushMsg> {
    q + [m]
  }

  function Dequeue(q: seq<PushMsg>): (PushMsg, seq<PushMsg>)
    requires |q| > 0
  {
    (q[0], q[1..])
  }

  /** First in, first out: a message sent behind others comes out only
    * after them, and into an empty queue it comes straight out. */
  lemma QueueFifo(q: seq<PushMsg>, m: PushMsg)
    ensures |q| == 0 ==> Dequeue(Enqueue(q, m)) == (m, [])
    ensures |q| > 0 ==> Dequeue(Enqueue(q, m)) == (q[0], Enqueue(q[1..], m))
  {
    if |q| > 0 {
      assert (q + [m])[1..] == q[1..] + [m];
    } else {
      assert q + [m] == [m] && [m][1..] == [];
    }
  }

  /** A cached connect event carries a MAC attribute equal to the address. */
  predicate HasMac(m: PushMsg, mac: seq<bv8>) {
    m.buff.Some? && m.buff.value.ConnectEx? && MacIn(m.buff.value.attribs, mac)
  }

  /** Some attribute of MAC type holds the address. */
  predicate MacIn(attribs: seq<WlanAttrib>, mac: seq<bv8>) {
    exists k :: 0 <= k < |attribs| && attribs[k].attribType == AttribMacAddr && attribs[k].mac == mac
  }

  /** The cache without the events of the client with that address. */
  function DropMac(cache: seq<PushMsg>, mac: seq<bv8>): seq<PushMsg> {
    if |cache| == 0 then []
    else DropMac(cache[..|cache| - 1], mac) + (if HasMac(cache[|cache| - 1], mac) then [] else [cache[|cache| - 1]])
  }

  /** After a disconnect no cached event of that client is left, every
    * other event stays, and the cache does not grow. */
  lemma {:induction false} DropMacSound(cache: seq<PushMsg>, mac: seq<bv8>)
    ensures forall m :: m in DropMac(cache, mac) ==> m in cache && !HasMac(m, mac)
    ensures forall m :: m in cache && !HasMac(m, mac) ==> m in DropMac(cache, mac)
    ensures |DropMac(cache, mac)| <= |cache|
  {
    if |cache| > 0 {
      DropMacSound(cache[..|cache| - 1], mac);
      assert cache == cache[..|cache| - 1] + [cache[|cache| - 1]];
    }
  }

  /** The first pull message registered with that length and type. */
  function FindPull(list: seq<PullMsg>, meta: Meta): (r: Option<nat>)
    ensures r.Some? ==> r.value < |list| && list[r.value].meta == meta
    ensures r.Some? ==> forall j :: 0 <= j < r.value ==> list[j].meta != meta
    ensures r.None? ==> forall j :: 0 <= j < |list| ==> list[j].meta != meta
  {
    if |list| == 0 then None
    else if list[0].meta == meta then Some(0)
    else match FindPull(list[1..], meta)
      case None => None
      case Some(k) => Some(k + 1)
  }

  /** Copying a payload for a queue: a payload is copied only when the
    * message has a length and a buffer. */
  function CopiedPayload(meta: Meta, buff: Option<Payload>): Option<Payload> {
    if meta.msgLen > 0 && buff.Some? then buff else None
  }

  /** A connect or disconnect event, once past the checks, is read
    * through its buffer, which must therefore hold that event. */
  predicate WlanPayloadOk(meta: Meta, buff: Option<Payload>) {
    (meta.msgType == WlanClientConnectEx ==> buff.Some? && buff.value.ConnectEx?) &&
    (meta.msgType == WlanClientDisconnect ==> buff.Some? && buff.value.Disconnect?)
  }

  class IpaContext {
    /** IPA_EVENT_MAX_NUM, the number of message types. */
    const eventMaxNum: nat

    var intfList: seq<Intf>
    var msgList: seq<PushMsg>
    var pullMsgList: seq<PullMsg>
    var wlanClientList: seq<PushMsg>
    /** Messages written and read, per type. */
    var msgW: seq<nat>
    var msgR: seq<nat>

    /** Stored names fit their buffer, property counts their limit, and
      * every queued message has a known type. */
    predicate Valid()
      reads this
    {
      NamesStored(intfList) && |msgW| == eventMaxNum && |msgR| == eventMaxNum &&
      (forall j :: 0 <= j < |msgList| ==> msgList[j].meta.msgType < eventMaxNum) &&
      (forall j :: 0 <= j < |wlanClientList| ==> wlanClientList[j].meta.msgType < eventMaxNum) &&
      (forall j :: 0 <= j < |intfList| ==>
         |intfList[j].tx| <= NumPropsMax && |intfList[j].rx| <= NumPropsMax && |intfList[j].ext| <= NumPropsMax)
    }

    constructor (eventMaxNum: nat)
      ensures Valid() && this.eventMaxNum == eventMaxNum
      ensures intfList == [] && msgList == [] && pullMsgList == [] && wlanClientList == []
    {
      this.eventMaxNum := eventMaxNum;
      intfList := [];
      msgList := [];
      pullMsgList := [];
      wlanClientList := [];
      msgW := seq(eventMaxNum, _ => 0);
      msgR := seq(eventMaxNum, _ => 0);
    }

    /** ipa2_register_intf_ext: -EINVAL without a name, without any
      * properties, or with more than IPA_NUM_PROPS_MAX of a kind;
      * -ENOMEM when an allocation it reaches fails; otherwise the
      * interface, its name truncated to the buffer and its exception pipe
      * the extended one when marked valid, goes at the tail. */
    method RegisterIntfExt(name: Option<seq<char>>, tx: Option<seq<PropRecord>>, rx: Option<seq<PropRecord>>,
                           ext: Option<ExtIntf>, allocFail: Option<RegisterAlloc>) returns (r: int)
      requires Valid()
      modifies this
      ensures Valid()
      ensures msgList == old(msgList) && pullMsgList == old(pullMsgList) && wlanClientList == old(wlanClientList)
      ensures msgW == old(msgW) && msgR == old(msgR)
      ensures r == -EINVAL <==>
                name.None? || (tx.None? && rx.None? && ext.None?) ||
                (tx.Some? && |tx.value| > NumPropsMax) || (rx.Some? && |rx.value| > NumPropsMax) ||
                (ext.Some? && |ext.value.props| > NumPropsMax)
      ensures r == -ENOMEM <==> (r != -EINVAL && allocFail.Some? &&
                (allocFail.value == IntfAlloc || (allocFail.value == TxAlloc && tx.Some?) ||
                 (allocFail.value == RxAlloc && rx.Some?) || (allocFail.value == ExtAlloc && ext.Some?)))
      ensures r == 0 || r == -EINVAL || r == -ENOMEM
      ensures r != 0 ==> intfList == old(intfList)
      ensures r == 0 ==> intfList == old(intfList) + [Intf(StoredName(name.value),
                  if tx.Some? then tx.value else [], if rx.Some? then rx.value else [],
                  if ext.Some? then ext.value.props else [],
                  if ext.Some? && ext.value.excpPipeValid then Client(ext.value.excpPipe) else AppsLanCons)]
    {
      if name.None? || (tx.None? && rx.None? && ext.None?) {
        return -EINVAL;
      }
      if tx.Some? && |tx.value| > NumPropsMax {
        return -EINVAL;
      }
      if rx.Some? && |rx.value| > NumPropsMax {
        return -EINVAL;
      }
      if ext.Some? && |ext.value.props| > NumPropsMax {
        return -EINVAL;
      }
      if allocFail == Some(IntfAlloc) {
        return -ENOMEM;
      }
      var intf := Intf(StoredName(name.value), [], [], [], AppsLanCons);
      if tx.Some? {
        if allocFail == Some(TxAlloc) {
          return -ENOMEM;
        }
        intf := intf.(tx := tx.value);
      }
      if rx.Some? {
        if allocFail == Some(RxAlloc) {
          return -ENOMEM;
        }
        intf := intf.(rx := rx.value);
      }
      if ext.Some? {
        if allocFail == Some(ExtAlloc) {
          return -ENOMEM;
        }
        intf := intf.(ext := ext.value.props);
      }
      if ext.Some? && ext.value.excpPipeValid {
        intf := intf.(excpPipe := Client(ext.value.excpPipe));
      } else {
        intf := intf.(excpPipe := AppsLanCons);
      }
      intfList := intfList + [intf];
      return 0;
    }

    /** The first interface whose stored name equals the name, found by
      * walking the list. */
    method FindIntfIn(name: seq<char>) returns (found: Option<nat>)
      ensures found == FindIntf(intfList, name)
    {
      var i := 0;
      while i < |intfList|
        invariant 0 <= i <= |intfList|
        invariant forall j :: 0 <= j < i ==> intfList[j].name != name
      {
        if intfList[i].name == name {
          FindIntfFirst(intfList, name, i);
          return Some(i);
        }
        i := i + 1;
      }
      return None;
    }

    /** ipa2_deregister_intf as written: the stored names are compared
      * with the name as given. */
    method DeregisterIntfAsWritten(name: Option<seq<char>>) returns (r: int)
      requires Valid()
      modifies this
      ensures Valid()
      ensures var f := if name.Some? then FindIntf(old(intfList), name.value) else None;
              (r == 0 <==> f.Some?) && (r != 0 ==> r == -EINVAL && intfList == old(intfList)) &&
              (f.Some? ==> intfList == Without(old(intfList), f.value))
      ensures msgList == old(msgList) && pullMsgList == old(pullMsgList) && wlanClientList == old(wlanClientList)
      ensures msgW == old(msgW) && msgR == old(msgR)
    {
      if name.None? {
        return -EINVAL;
      }
      var found := FindIntfIn(name.value);
      if found.None? {
        return -EINVAL;
      }
      intfList := Without(intfList, found.value);
      return 0;
    }

    /** ipa2_deregister_intf with the name truncated as registration
      * stores it: only the first interface of that name goes. */
    method DeregisterIntf(name: Option<seq<char>>) returns (r: int)
      requires Valid()
      modifies this
      ensures Valid()
      ensures var f := if name.Some? then FindIntf(old(intfList), StoredName(name.value)) else None;
              (r == 0 <==> f.Some?) && (r != 0 ==> r == -EINVAL && intfList == old(intfList)) &&
              (f.Some? ==> intfList == Without(old(intfList), f.value))
      ensures msgList == old(msgList) && pullMsgList == old(pullMsgList) && wlanClientList == old(wlanClientList)
      ensures msgW == old(msgW) && msgR == old(msgR)
    {
      if name.None? {
        return -EINVAL;
      }
      var found := FindIntfIn(StoredName(name.value));
      if found.None? {
        return -EINVAL;
      }
      intfList := Without(intfList, found.value);
      return 0;
    }

    /** ipa_query_intf: the counts and exception pipe of the first
      * interface of the (truncated) name, else -EINVAL. */
    method QueryIntf(name: Option<seq<char>>) returns (r: int, counts: Option<IntfCounts>)
      ensures var f := if name.Some? then FindIntf(intfList, StoredName(name.value)) else None;
              (r == 0 <==> f.Some?) && (r != 0 ==> r == -EINVAL && counts.None?) &&
              (f.Some? ==> var e := intfList[f.value];
                           counts == Some(IntfCounts(|e.tx|, |e.rx|, |e.ext|, e.excpPipe)))
    {
      if name.None? {
        return -EINVAL, None;
      }
      var found := FindIntfIn(StoredName(name.value));
      if found.None? {
        return -EINVAL, None;
      }
      var e := intfList[found.value];
      return 0, Some(IntfCounts(|e.tx|, |e.rx|, |e.ext|, e.excpPipe));
    }

    /** ipa_query_intf_tx_props, _rx_props and _ext_props: the properties
      * of the first interface of the name, provided the caller expects
      * exactly as many as are stored; otherwise -EINVAL. The TX and RX
      * queries truncate the name, the EXT query does not. */
    method QueryIntfProps(kind: PropKind, name: Option<seq<char>>, expected: nat)
      returns (r: int, props: Option<seq<PropRecord>>)
      ensures var key := if name.Some? then (if kind == ExtProps then name.value else StoredName(name.value)) else [];
              var f := if name.Some? then FindIntf(intfList, key) else None;
              (r == 0 <==> f.Some? && |PropsOf(intfList[f.value], kind)| == expected) &&
              (r != 0 ==> r == -EINVAL && props.None?) &&
              (r == 0 ==> props == Some(PropsOf(intfList[f.value], kind)))
    {
      if name.None? {
        return -EINVAL, None;
      }
      var key := if kind == ExtProps then name.value else StoredName(name.value);
      var found := FindIntfIn(key);
      if found.None? {
        return -EINVAL, None;
      }
      var stored := PropsOf(intfList[found.value], kind);
      if |stored| != expected {
        return -EINVAL, None;
      }
      return 0, Some(stored);
    }

    /** ipa2_send_msg: -EINVAL without meta data, with a buffer but no
      * callback or the reverse, or with an unknown type; -ENOMEM when the
      * message or its copy cannot be allocated; otherwise the message goes
      * at the tail of the queue, its type's write count goes up, and the
      * WLAN cache is updated as WlanCacheAfter says. */
    method SendMsg(meta: Option<Meta>, buff: Option<Payload>, hasCallback: bool, allocFail: Option<SendAlloc>)
      returns (r: int)
      requires Valid()
      requires meta.Some? && meta.value.msgType < eventMaxNum ==> WlanPayloadOk(meta.value, buff)
      modifies this
      ensures Valid()
      ensures r == -EINVAL <==> meta.None? || (buff.None? && hasCallback) || (buff.Some? && !hasCallback) ||
                                meta.value.msgType >= eventMaxNum
      ensures r == -ENOMEM <==> (r != -EINVAL &&
                (allocFail == Some(MsgAlloc) || (allocFail == Some(DataAlloc) && meta.value.msgLen > 0 && buff.Some?)))
      ensures r == 0 || r == -EINVAL || r == -ENOMEM
      ensures r != 0 ==> msgList == old(msgList) && msgW == old(msgW) && wlanClientList == old(wlanClientList)
      ensures r == 0 ==>
                msgList == Enqueue(old(msgList), PushMsg(meta.value, CopiedPayload(meta.value, buff))) &&
                msgW == old(msgW)[meta.value.msgType := old(msgW)[meta.value.msgType] + 1] &&
                wlanClientList == WlanCacheAfter(old(wlanClientList), meta.value, buff, allocFail)
      ensures intfList == old(intfList) && pullMsgList == old(pullMsgList) && msgR == old(msgR)
    {
      if meta.None? || (buff.None? && hasCallback) || (buff.Some? && !hasCallback) {
        return -EINVAL;
      }
      var m := meta.value;
      if m.msgType >= eventMaxNum {
        return -EINVAL;
      }
      if allocFail == Some(MsgAlloc) {
        return -ENOMEM;
      }
      if m.msgLen > 0 && buff.Some? {
        if allocFail == Some(DataAlloc) {
          return -ENOMEM;
        }
      }
      msgList := msgList + [PushMsg(m, CopiedPayload(m, buff))];
      WlanMsgProcess(m, buff, allocFail);
      msgW := msgW[m.msgType := msgW[m.msgType] + 1];
      return 0;
    }

    /** wlan_msg_process: a connect event is cached (unless its container
      * or copy cannot be allocated), a disconnect event drops every
      * cached event of that client. */
    method WlanMsgProcess(meta: Meta, buff: Option<Payload>, allocFail: Option<SendAlloc>)
      requires WlanPayloadOk(meta, buff)
      modifies this
      ensures wlanClientList == WlanCacheAfter(old(wlanClientList), meta, buff, allocFail)
      ensures forall m :: m in wlanClientList ==> m in old(wlanClientList) || m.meta == meta
      ensures intfList == old(intfList) && msgList == old(msgList) && pullMsgList == old(pullMsgList)
      ensures msgW == old(msgW) && msgR == old(msgR)
    {
      if meta.msgType == WlanClientConnectEx {
        if allocFail == Some(CacheAlloc) {
          return;
        }
        if meta.msgLen > 0 && buff.Some? && allocFail == Some(CacheDataAlloc) {
          return;
        }
        wlanClientList := wlanClientList + [PushMsg(meta, CopiedPayload(meta, buff))];
      }
      if meta.msgType == WlanClientDisconnect {
        DropMacSound(wlanClientList, buff.value.mac);
        wlanClientList := DropMacFrom(wlanClientList, buff.value.mac);
      }
    }

    /** ipa2_resend_wlan_msg: a copy of every cached event, in order, goes
      * at the tail of the queue; when the copy of the k-th cannot be
      * allocated, the ones before it have been queued and -ENOMEM is
      * returned. */
    method ResendWlanMsg(allocFailAt: Option<nat>) returns (r: int)
      requires Valid()
      modifies this
      ensures Valid()
      ensures var n := |old(wlanClientList)|;
              var k := if allocFailAt.Some? && allocFailAt.value < n then allocFailAt.value else n;
              msgList == old(msgList) + old(wlanClientList)[..k] &&
              r == (if k < n then -ENOMEM else 0)
      ensures intfList == old(intfList) && pullMsgList == old(pullMsgList) && wlanClientList == old(wlanClientList)
      ensures msgW == old(msgW) && msgR == old(msgR)
    {
      var i := 0;
      while i < |wlanClientList|
        invariant 0 <= i <= |wlanClientList|
        invariant allocFailAt.Some? ==> i <= allocFailAt.value
        invariant msgList == old(msgList) + wlanClientList[..i]
        invariant Valid()
        invariant intfList == old(intfList) && pullMsgList == old(pullMsgList) && wlanClientList == old(wlanClientList)
        invariant msgW == old(msgW) && msgR == old(msgR)
      {
        if allocFailAt == Some(i) {
          return -ENOMEM;
        }
        assert wlanClientList[..i + 1] == wlanClientList[..i] + [wlanClientList[i]];
        msgList := msgList + [wlanClientList[i]];
        i := i + 1;
      }
      assert wlanClientList[..i] == wlanClientList;
      return 0;
    }

    /** ipa2_register_pull_msg: -EINVAL without meta data or callback,
      * -ENOMEM when the entry cannot be allocated, else appended. */
    method RegisterPullMsg(meta: Option<Meta>, callback: Option<nat>, allocFails: bool) returns (r: int)
      modifies this
      ensures r == -EINVAL <==> meta.None? || callback.None?
      ensures r == -ENOMEM <==> meta.Some? && callback.Some? && allocFails
      ensures r == 0 ==> pullMsgList == old(pullMsgList) + [PullMsg(meta.value, callback.value)]
      ensures r != 0 ==> pullMsgList == old(pullMsgList)
      ensures r == 0 || r == -EINVAL || r == -ENOMEM
      ensures intfList == old(intfList) && msgList == old(msgList) && wlanClientList == old(wlanClientList)
      ensures msgW == old(msgW) && msgR == old(msgR)
    {
      if meta.None? || callback.None? {
        return -EINVAL;
      }
      if allocFails {
        return -ENOMEM;
      }
      pullMsgList := pullMsgList + [PullMsg(meta.value, callback.value)];
      return 0;
    }

    /** The first pull message with that length and type, found by
      * walking the list. */
    method FindPullIn(meta: Meta) returns (found: Option<nat>)
      ensures found == FindPull(pullMsgList, meta)
    {
      var i := 0;
      while i < |pullMsgList|
        invariant 0 <= i <= |pullMsgList|
        invariant forall j :: 0 <= j < i ==> pullMsgList[j].meta != meta
      {
        if pullMsgList[i].meta == meta {
          FindPullFirst(pullMsgList, meta, i);
          return Some(i);
        }
        i := i + 1;
      }
      return None;
    }

    /** ipa2_deregister_pull_msg: the first entry matching both length and
      * type goes; with none, -EINVAL and no change. */
    method DeregisterPullMsg(meta: Option<Meta>) returns (r: int)
      modifies this
      ensures var f := if meta.Some? then FindPull(old(pullMsgList), meta.value) else None;
              (r == 0 <==> f.Some?) && (r != 0 ==> r == -EINVAL && pullMsgList == old(pullMsgList)) &&
              (f.Some? ==> pullMsgList == Without(old(pullMsgList), f.value))
      ensures intfList == old(intfList) && msgList == old(msgList) && wlanClientList == old(wlanClientList)
      ensures msgW == old(msgW) && msgR == old(msgR)
    {
      if meta.None? {
        return -EINVAL;
      }
      var found := FindPullIn(meta.value);
      if found.None? {
        return -EINVAL;
      }
      pullMsgList := Without(pullMsgList, found.value);
      return 0;
    }

    /** ipa_pull_msg: -EINVAL without meta data, a buffer or room; else
      * the callback of the first matching entry is called and its result
      * returned, -EINVAL with no match. */
    method PullMsgFrom(meta: Option<Meta>, hasBuff: bool, count: nat, callbackResult: int)
      returns (r: int, called: Option<nat>)
      ensures var f := if meta.Some? && hasBuff && count > 0 then FindPull(pullMsgList, meta.value) else None;
              (f.None? ==> r == -EINVAL && called.None?) &&
              (f.Some? ==> r == callbackResult && called == Some(pullMsgList[f.value].callback))
    {
      if meta.None? || !hasBuff || count == 0 {
        return -EINVAL, None;
      }
      var found := FindPullIn(meta.value);
      if found.None? {
        return -EINVAL, None;
      }
      return callbackResult, Some(pullMsgList[found.value].callback);
    }

    /** One pass of ipa_read. With a message queued, the oldest is taken
      * off the queue: it is lost with -EFAULT when the buffer cannot hold
      * its meta data, or its payload, or a copy faults; otherwise the
      * meta data and payload are delivered, the type's read count goes
      * up, and the bytes copied are returned. With none, the read ends
      * -EAGAIN when non-blocking, -EINTR on a signal, and otherwise
      * waits. */
    method Read(count: nat, nonBlock: bool, signalPending: bool, metaFault: bool, dataFault: bool)
      returns (r: ReadOutcome, delivered: Option<PushMsg>)
      requires Valid()
      modifies this
      ensures Valid()
      ensures |old(msgList)| == 0 ==>
                msgList == old(msgList) && msgR == old(msgR) && delivered.None? &&
                r == (if nonBlock then Again else if signalPending then Interrupted else Wait)
      ensures |old(msgList)| > 0 ==>
                var (m, rest) := Dequeue(old(msgList));
                msgList == rest &&
                (r == Fault <==> count < MetaSize || metaFault ||
                                 (m.buff.Some? && (count - MetaSize < m.meta.msgLen || dataFault))) &&
                (r != Fault ==> delivered == Some(m) &&
                                r == Copied(MetaSize + (if m.buff.Some? then m.meta.msgLen else 0)) &&
                                msgR == old(msgR)[m.meta.msgType := old(msgR)[m.meta.msgType] + 1]) &&
                (r == Fault ==> delivered.None? && msgR == old(msgR))
      ensures intfList == old(intfList) && pullMsgList == old(pullMsgList) && wlanClientList == old(wlanClientList)
      ensures msgW == old(msgW)
    {
      if |msgList| == 0 {
        if nonBlock {
          return Again, None;
        }
        if signalPending {
          return Interrupted, None;
        }
        return Wait, None;
      }
      var m := msgList[0];
      msgList := msgList[1..];
      if count < MetaSize || metaFault {
        return Fault, None;
      }
      var copied := MetaSize;
      var left := count - MetaSize;
      if m.buff.Some? {
        if left >= m.meta.msgLen {
          if dataFault {
            return Fault, None;
          }
        } else {
          return Fault, None;
        }
        copied := copied + m.meta.msgLen;
      }
      msgR := msgR[m.meta.msgType := msgR[m.meta.msgType] + 1];
      return Copied(copied), Some(m);
    }
  }

  /** The WLAN cache after a message: a connect event appended (unless an
    * allocation fails), a disconnect event's client dropped, any other
    * message leaving it alone. */
  function WlanCacheAfter(cache: seq<PushMsg>, meta: Meta, buff: Option<Payload>, allocFail: Option<SendAlloc>)
    : seq<PushMsg>
    requires WlanPayloadOk(meta, buff)
  {
    if meta.msgType == WlanClientConnectEx then
      if allocFail == Some(CacheAlloc) || (meta.msgLen > 0 && buff.Some? && allocFail == Some(CacheDataAlloc))
      then cache
      else cache + [PushMsg(meta, CopiedPayload(meta, buff))]
    else if meta.msgType == WlanClientDisconnect then DropMac(cache, buff.value.mac)
    else cache
  }

  /** A connect event then a disconnect event of the same client leave
    * the cache without any event of that client. */
  lemma ConnectThenDisconnect(cache: seq<PushMsg>, connect: Meta, attribs: seq<WlanAttrib>,
                              disconnect: Meta, mac: seq<bv8>)
    requires connect.msgType == WlanClientConnectEx && disconnect.msgType == WlanClientDisconnect
    ensures var c := WlanCacheAfter(cache, connect, Some(ConnectEx(attribs)), None);
            var d := WlanCacheAfter(c, disconnect, Some(Disconnect(mac)), None);
            forall m :: m in d ==> !HasMac(m, mac)
  {
    var c := WlanCacheAfter(cache, connect, Some(ConnectEx(attribs)), None);
    DropMacSound(c, mac);
  }

  /** The list walk stops at the first interface of the name. */
  lemma FindIntfFirst(list: seq<Intf>, name: seq<char>, i: nat)
    requires i < |list| && list[i].name == name
    requires forall j :: 0 <= j < i ==> list[j].name != name
    ensures FindIntf(list, name) == Some(i)
  {
    var f := FindIntf(list, name);
    assert f.Some?;
  }

  lemma FindPullFirst(list: seq<PullMsg>, meta: Meta, i: nat)
    requires i < |list| && list[i].meta == meta
    requires forall j :: 0 <= j < i ==> list[j].meta != meta
    ensures FindPull(list, meta) == Some(i)
  {
    var f := FindPull(list, meta);
    assert f.Some?;
  }

  /** The walk of the disconnect handling over the cache, keeping the
    * events of every other client. */
  method DropMacFrom(cache: seq<PushMsg>, mac: seq<bv8>) returns (kept: seq<PushMsg>)
    ensures kept == DropMac(cache, mac)
  {
    kept := [];
    var i := 0;
    while i < |cache|
      invariant 0 <= i <= |cache|
      invariant kept == DropMac(cache[..i], mac)
    {
      var entry := cache[i];
      var matches := EntryHasMac(entry, mac);
      assert cache[..i + 1][..i] == cache[..i];
      if !matches {
        kept := kept + [entry];
      }
      i := i + 1;
    }
    assert cache[..i] == cache;
  }

  /** The attribute loop of the disconnect handling: whether a MAC-type
    * attribute of the cached event holds the address. */
  method EntryHasMac(entry: PushMsg, mac: seq<bv8>) returns (b: bool)
    ensures b == HasMac(entry, mac)
  {
    if entry.buff.None? || !entry.buff.value.ConnectEx? {
      return false;
    }
    var attribs := entry.buff.value.attribs;
    var cnt := 0;
    while cnt < |attribs|
      invariant 0 <= cnt <= |attribs|
      invariant forall k :: 0 <= k < cnt ==> !(attribs[k].attribType == AttribMacAddr && attribs[k].mac == mac)
    {
      if attribs[cnt].attribType == AttribMacAddr && attribs[cnt].mac == mac {
        return true;
      }
      cnt := cnt + 1;
    }
    return false;
  }
}
