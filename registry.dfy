/**
 The agent registry of the motion planner node: the list of `agent_info`
 messages it keeps, one per agent that has reported a start pose.

 The node stores the registry as a vector and searches it front to back, so
 every query here is a "first match by serial id" over a sequence. The
 functions in this module are the specification that the node's loops
 (module MotionPlannerNode) are proved against; the lemmas state what an upsert
 and a lookup promise.
 */
module AgentRegistry {

  datatype Option<T> = None | Some(value: T)

  /** The agent's identifier as carried by an `agent_info` message. */
  type SerialId = string

  /**
   A 2D pose. The node only copies poses and compares nothing inside them, so
   the floating-point fields are modelled as reals that are never computed on.
   */
  datatype Pose2D = Pose2D(x: real, y: real, theta: real)

  /** A value-initialised pose, as a freshly declared message holds it. */
  const DefaultPose := Pose2D(0.0, 0.0, 0.0)

  /** One `agent_info` message: who the agent is and where it starts. */
  datatype AgentInfo = AgentInfo(serialId: SerialId, startPose: Pose2D)

  /** Some entry of `agents` carries `id`. */
  predicate Registered(agents: seq<AgentInfo>, id: SerialId)
  {
    exists k :: 0 <= k < |agents| && agents[k].serialId == id
  }

  /** `k` is the first index of `agents` whose entry carries `id`. */
  predicate FirstMatch(agents: seq<AgentInfo>, id: SerialId, k: int)
  {
    && 0 <= k < |agents|
    && agents[k].serialId == id
    && forall j :: 0 <= j < k ==> agents[j].serialId != id
  }

  /** No two entries of `agents` carry the same serial id. */
  predicate IdsUnique(agents: seq<AgentInfo>)
  {
    forall i, j :: 0 <= i < j < |agents| ==> agents[i].serialId != agents[j].serialId
  }

  /** The index a front-to-back scan for `id` stops at, if any. */
  function FindFirst(agents: seq<AgentInfo>, id: SerialId): (r: Option<nat>)
    ensures r.Some? ==> FirstMatch(agents, id, r.value)
    ensures r.None? <==> !Registered(agents, id)
  {
    if |agents| == 0 then None
    else if agents[0].serialId == id then Some(0)
    else match FindFirst(agents[1..], id)
      case None => None
      case Some(k) => Some(k + 1)
  }

  /** The first match is unique: a scan can stop at only one place. */
  lemma FirstMatchUnique(agents: seq<AgentInfo>, id: SerialId, k1: int, k2: int)
    requires FirstMatch(agents, id, k1) && FirstMatch(agents, id, k2)
    ensures k1 == k2
  {
  }

  /** The pose the registry holds for `id`: that of the first entry carrying it. */
  function Lookup(agents: seq<AgentInfo>, id: SerialId): (r: Option<Pose2D>)
    ensures r.Some? <==> Registered(agents, id)
    ensures r.Some? ==> exists k :: FirstMatch(agents, id, k) && agents[k].startPose == r.value
  {
    match FindFirst(agents, id)
    case None => None
    case Some(k) => Some(agents[k].startPose)
  }

  /** With distinct serial ids, a lookup returns the pose of the one entry that carries the id. */
  lemma LookupUnique(agents: seq<AgentInfo>, k: int)
    requires IdsUnique(agents) && 0 <= k < |agents|
    ensures Lookup(agents, agents[k].serialId) == Some(agents[k].startPose)
  {
    var id := agents[k].serialId;
    assert FirstMatch(agents, id, k);
    FirstMatchUnique(agents, id, k, FindFirst(agents, id).value);
  }

  /**
   The registry after a pose report `msg`: the first entry with the same
   serial id is overwritten with `msg`; when there is none, `msg` is appended.
   */
  function Upserted(agents: seq<AgentInfo>, msg: AgentInfo): seq<AgentInfo>
  {
    match FindFirst(agents, msg.serialId)
    case Some(k) => agents[k := msg]
    case None => agents + [msg]
  }

  /** The index of the entry an upsert writes. */
  function UpsertIndex(agents: seq<AgentInfo>, msg: AgentInfo): (k: nat)
    ensures Registered(agents, msg.serialId) ==> FirstMatch(agents, msg.serialId, k)
    ensures !Registered(agents, msg.serialId) ==> k == |agents|
  {
    match FindFirst(agents, msg.serialId)
    case Some(k) => k
    case None => |agents|
  }

  /** A report for a known agent keeps the length and overwrites its first entry. */
  lemma UpsertExisting(agents: seq<AgentInfo>, msg: AgentInfo, k: int)
    requires FirstMatch(agents, msg.serialId, k)
    ensures |Upserted(agents, msg)| == |agents|
    ensures Upserted(agents, msg)[k] == msg
  {
    assert FindFirst(agents, msg.serialId) == Some(k) by {
      FirstMatchUnique(agents, msg.serialId, k, FindFirst(agents, msg.serialId).value);
    }
  }

  /** A report for an unknown agent appends it: the registry grows by exactly one. */
  lemma UpsertNew(agents: seq<AgentInfo>, msg: AgentInfo)
    requires !Registered(agents, msg.serialId)
    ensures Upserted(agents, msg) == agents + [msg]
    ensures |Upserted(agents, msg)| == |agents| + 1
  {
  }

  /** Every entry other than the one written keeps its value and its position. */
  lemma UpsertFrame(agents: seq<AgentInfo>, msg: AgentInfo, j: int)
    requires 0 <= j < |agents| && j != UpsertIndex(agents, msg)
    ensures j < |Upserted(agents, msg)| && Upserted(agents, msg)[j] == agents[j]
  {
  }

  /** Distinct serial ids survive an upsert. */
  lemma UpsertKeepsIdsUnique(agents: seq<AgentInfo>, msg: AgentInfo)
    requires IdsUnique(agents)
    ensures IdsUnique(Upserted(agents, msg))
  {
  }

  /** After a report, looking the agent up finds the reported pose. */
  lemma LookupAfterUpsert(agents: seq<AgentInfo>, msg: AgentInfo)
    ensures Lookup(Upserted(agents, msg), msg.serialId) == Some(msg.startPose)
  {
    var r := Upserted(agents, msg);
    var k := UpsertIndex(agents, msg);
    assert FirstMatch(r, msg.serialId, k);
    FirstMatchUnique(r, msg.serialId, k, FindFirst(r, msg.serialId).value);
  }

  /** A report for one agent does not change what a lookup of any other agent finds. */
  lemma LookupOtherAfterUpsert(agents: seq<AgentInfo>, msg: AgentInfo, id: SerialId)
    requires id != msg.serialId
    ensures Lookup(Upserted(agents, msg), id) == Lookup(agents, id)
  {
    var r := Upserted(agents, msg);
    var k := UpsertIndex(agents, msg);
    if Registered(agents, id) {
      var m := FindFirst(agents, id).value;
      assert FirstMatch(r, id, m);
      FirstMatchUnique(r, id, m, FindFirst(r, id).value);
    } else {
      assert !Registered(r, id) by {
        forall j | 0 <= j < |r| ensures r[j].serialId != id {
          if j != k { assert r[j] == agents[j]; }
        }
      }
    }
  }

  /** A second report for the same agent overwrites the first rather than adding an entry. */
  lemma UpsertTwiceOverwrites(agents: seq<AgentInfo>, msg1: AgentInfo, msg2: AgentInfo)
    requires msg1.serialId == msg2.serialId
    ensures Upserted(Upserted(agents, msg1), msg2) == Upserted(agents, msg2)
  {
    var id := msg1.serialId;
    var r := Upserted(agents, msg1);
    var k := UpsertIndex(agents, msg1);
    assert FirstMatch(r, id, k);
    FirstMatchUnique(r, id, k, FindFirst(r, id).value);
    if Registered(agents, id) {
      FirstMatchUnique(agents, id, k, FindFirst(agents, id).value);
      assert r[k := msg2] == agents[k := msg2];
    } else {
      assert r[k := msg2] == agents + [msg2];
    }
  }

  /** The registry seen as a dictionary from serial id to pose, as lookups see it. */
  function AsMap(agents: seq<AgentInfo>): (m: map<SerialId, Pose2D>)
    ensures forall id :: id in m <==> Registered(agents, id)
    ensures forall id :: id in m ==> Lookup(agents, id) == Some(m[id])
  {
    map id | id in (set k | 0 <= k < |agents| :: agents[k].serialId) :: Lookup(agents, id).value
  }

  /** At one serial id, the dictionary after an upsert agrees with the updated dictionary. */
  lemma UpsertMapAt(agents: seq<AgentInfo>, msg: AgentInfo, id: SerialId)
    ensures var m, m' := AsMap(agents)[msg.serialId := msg.startPose], AsMap(Upserted(agents, msg));
            (id in m' <==> id in m) && (id in m ==> m'[id] == m[id])
  {
    if id == msg.serialId {
      LookupAfterUpsert(agents, msg);
    } else {
      LookupOtherAfterUpsert(agents, msg, id);
    }
  }

  /** An upsert is a dictionary update of the serial id to the reported pose. */
  lemma UpsertIsMapUpdate(agents: seq<AgentInfo>, msg: AgentInfo)
    ensures AsMap(Upserted(agents, msg)) == AsMap(agents)[msg.serialId := msg.startPose]
  {
    var m := AsMap(agents)[msg.serialId := msg.startPose];
    var m' := AsMap(Upserted(agents, msg));
    forall id ensures (id in m' <==> id in m) && (id in m ==> m'[id] == m[id]) {
      UpsertMapAt(agents, msg, id);
    }
    assert m'.Keys == m.Keys;
  }
}
