/**
 The motion planner node: the agent registry it updates from pose reports,
 the plan service that looks an agent up, and the roadmap it builds at start.
 The ROS publisher, subscriber and service handles are not modelled; the
 node's observable effect on the visualisation topic is kept as the point
 list of the marker it publishes.
 */
module MotionPlannerNode {
  import opened AgentRegistry
  import opened Roadmap

  /** What the plan service logs when it is asked about an agent it has never heard from. */
  const UnknownAgentMessage: string := "That agent does not yet exist."

  class MotionPlanner {
    /** One `agent_info` message per agent that has reported, in order of first report. */
    var agentStartPoses: seq<AgentInfo>
    /** Declared by the node and never read or written after construction. */
    var archivedPaths: seq<seq<Point>>
    /** The points of the roadmap marker the node publishes on start-up. */
    var markerPoints: seq<Point>

    /** The object invariant: pose reports never leave two entries for one agent. */
    predicate Valid()
      reads this
    {
      IdsUnique(agentStartPoses)
    }

    /** Starts with an empty registry, no archived paths, and publishes the roadmap. */
    constructor ()
      ensures Valid()
      ensures agentStartPoses == [] && archivedPaths == []
      ensures markerPoints == RoadmapPoints()
    {
      agentStartPoses := [];
      archivedPaths := [];
      new;
      var points := CreateRoadmap();
      markerPoints := points;
    }

    /**
     The plan service. It scans the registry for the requested agent and
     stops at the first match. It logs an error when there is none, computes
     no path, and reports success either way.
     */
    method GetPlan(serialId: SerialId, goalPose: Pose2D)
      returns (success: bool, found: bool, startPose: Pose2D, error: Option<string>)
      ensures success
      ensures found <==> Registered(agentStartPoses, serialId)
      ensures found ==> Lookup(agentStartPoses, serialId) == Some(startPose) && error == None
      ensures !found ==> startPose == DefaultPose && error == Some(UnknownAgentMessage)
    {
      startPose := DefaultPose;
      found := false;
      var i := 0;
      while i < |agentStartPoses|
        invariant 0 <= i <= |agentStartPoses|
        invariant forall j :: 0 <= j < i ==> agentStartPoses[j].serialId != serialId
      {
        if agentStartPoses[i].serialId == serialId {
          startPose := agentStartPoses[i].startPose;
          found := true;
          assert FirstMatch(agentStartPoses, serialId, i);
          break;
        }
        i := i + 1;
      }
      error := None;
      if !found {
        error := Some(UnknownAgentMessage);
      }
      success := true;
    }

    /**
     The pose-report handler: overwrite the first entry with the report's
     serial id, or append the report when no entry has it.
     */
    method AgentStartPoseCallback(msg: AgentInfo)
      requires Valid()
      modifies this
      ensures Valid()
      ensures agentStartPoses == Upserted(old(agentStartPoses), msg)
      ensures archivedPaths == old(archivedPaths) && markerPoints == old(markerPoints)
    {
      ghost var before := agentStartPoses;
      var found := false;
      var i := 0;
      while i < |agentStartPoses|
        invariant 0 <= i <= |agentStartPoses|
        invariant agentStartPoses == before
        invariant forall j :: 0 <= j < i ==> agentStartPoses[j].serialId != msg.serialId
      {
        if agentStartPoses[i].serialId == msg.serialId {
          assert FirstMatch(before, msg.serialId, i);
          UpsertExisting(before, msg, i);
          agentStartPoses := agentStartPoses[i := msg];
          found := true;
          break;
        }
        i := i + 1;
      }
      if !found {
        agentStartPoses := agentStartPoses + [msg];
      }
      UpsertKeepsIdsUnique(before, msg);
    }

    /** Lists the roadmap's waypoints, row by row, as the node adds them to its marker. */
    method CreateRoadmap() returns (points: seq<Point>)
      ensures points == RoadmapPoints()
    {
      points := [];
      var i := 0;
      while i <= GridMax
        invariant 0 <= i <= GridSide
        invariant points == RoadmapPoints()[..i * GridSide]
      {
        var j := 0;
        while j <= GridMax
          invariant 0 <= j <= GridSide
          invariant points == RoadmapPoints()[..i * GridSide + j]
        {
          RoadmapCellAt(i, j);
          points := points + [Point(i, j)];
          j := j + 1;
        }
        i := i + 1;
      }
    }
  }
}
