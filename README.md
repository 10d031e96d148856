# Multi-agent motion planner node: agent registry and roadmap

This project models the sequential logic of the `Motion_Planner` ROS node in
`src/motion_planner.cpp`:

- **Agent registry.** The node keeps a vector of `agent_info` messages
  (`agent_start_poses`). Each message is a serial id plus a start pose. The
  pose-report callback scans the vector by index. It overwrites the first
  entry that has the report's serial id. If no entry has it, the report is
  appended.
- **Plan service.** `get_plan` scans the same vector for the requested serial
  id and stops at the first match. If no entry matches, it logs
  "That agent does not yet exist.". It computes no path and returns `true`
  in both cases.
- **Roadmap.** `create_roadmap` adds the 121 points `(i, j)`, `0 <= i, j <= 10`,
  to a marker. The outer loop runs over `i` and the inner loop over `j`.

Files:

- `registry.dfy` (module `AgentRegistry`) holds the message datatypes and the
  specification functions. `FindFirst` finds the first index with a serial id,
  `Lookup` returns that entry's pose, `Upserted` gives the registry after a
  report, and `AsMap` views the registry as a dictionary. The lemmas about
  upsert and lookup are here too.
- `roadmap.dfy` (module `Roadmap`) holds the grid point type, the row-major
  waypoint list `RoadmapPoints`, and lemmas about it: size, bounds, order,
  and that each cell appears exactly once.
- `motion_planner.dfy` (module `MotionPlannerNode`) holds the class
  `MotionPlanner`. Its fields are the registry, the unused `archived_paths`
  and the published marker's points. Its methods are the source's loops,
  each proved against the functions above.

The class invariant `Valid()` says that no two registry entries share a
serial id. The constructor establishes it and the pose-report callback keeps it.

The plan service follows the code: an unknown agent is logged and the
service still reports success. A redesign that makes this a hard error is
described for this system, but the code does not do that, so the model does not.

## Model

| member | source | states |
|---|---|---|
| `AgentRegistry.FindFirst` | src/motion_planner.cpp:66-74 | The scan stops at the first index whose serial id matches. It finds nothing exactly when no entry has the id. |
| `AgentRegistry.FirstMatchUnique` | src/motion_planner.cpp:66-73 | The first matching index is unique, because the scan breaks at the first hit. |
| `AgentRegistry.Lookup` | src/motion_planner.cpp:46-54 | The lookup succeeds exactly when some entry has the id. It then returns the pose of the first such entry. |
| `AgentRegistry.LookupUnique` | src/motion_planner.cpp:46-54 | If serial ids are distinct, looking up any entry's id returns that entry's pose. |
| `AgentRegistry.UpsertIndex` | src/motion_planner.cpp:66-77 | The upsert writes the first entry with the report's id, or one past the end when there is none. |
| `AgentRegistry.UpsertExisting` | src/motion_planner.cpp:66-74 | If an entry already has the id, the length is unchanged and the first such entry becomes the report. |
| `AgentRegistry.UpsertNew` | src/motion_planner.cpp:75-78 | If no entry has the id, the report is appended at the end and the length grows by exactly one. |
| `AgentRegistry.UpsertFrame` | src/motion_planner.cpp:66-78 | Every entry other than the written one keeps its value and position. |
| `AgentRegistry.UpsertKeepsIdsUnique` | src/motion_planner.cpp:66-78 | Pairwise-distinct serial ids stay pairwise distinct after an upsert. |
| `AgentRegistry.LookupAfterUpsert` | src/motion_planner.cpp:63-79 | After a report, looking up its serial id returns the reported pose. |
| `AgentRegistry.LookupOtherAfterUpsert` | src/motion_planner.cpp:63-79 | A report does not change what a lookup of any other serial id returns. |
| `AgentRegistry.UpsertTwiceOverwrites` | src/motion_planner.cpp:66-78 | Two reports for one agent give the same registry as the second report alone: the second overwrites and does not append. |
| `AgentRegistry.AsMap` | src/motion_planner.cpp:27 | The dictionary view has exactly the registered ids as keys, each mapped to the pose a lookup returns. |
| `AgentRegistry.UpsertIsMapUpdate` | src/motion_planner.cpp:63-79 | Seen as a dictionary, a report is the update of its serial id to its pose. |
| `Roadmap.RoadmapCellAt` | src/motion_planner.cpp:98-104 | Cell `(i, j)` is at index `i*11 + j`, because the outer loop runs over `i` and the inner loop over `j`. |
| `Roadmap.RoadmapOnGrid` | src/motion_planner.cpp:98-105 | The roadmap has exactly 121 points and every coordinate lies in `[0, 10]`. |
| `Roadmap.RoadmapLexicographic` | src/motion_planner.cpp:98-99 | Points appear in strictly increasing lexicographic order of `(x, y)`. |
| `Roadmap.RoadmapDistinct` | src/motion_planner.cpp:98-105 | No point is listed twice. |
| `Roadmap.RoadmapExactlyOnce` | src/motion_planner.cpp:98-105 | Each grid cell occurs exactly once in the roadmap. No point off the grid occurs. |
| `MotionPlannerNode.MotionPlanner.constructor` | src/motion_planner.cpp:30-38 | The registry and the archived paths start empty. The published marker holds the full roadmap. |
| `MotionPlannerNode.MotionPlanner.GetPlan` | src/motion_planner.cpp:40-61 | Always returns success. `found` holds exactly when the agent is registered, and then the start pose is the first match's pose. Otherwise the pose stays default and the "does not yet exist" error is logged. The registry is not changed. |
| `MotionPlannerNode.MotionPlanner.AgentStartPoseCallback` | src/motion_planner.cpp:63-79 | The new registry is the old one upserted with the message, and distinct ids stay distinct. Nothing else in the node changes. |
| `MotionPlannerNode.MotionPlanner.CreateRoadmap` | src/motion_planner.cpp:98-105 | The nested loops produce exactly the row-major list of the 121 grid points. |

## Left out

- ROS plumbing: the advertiser, subscriber and service registration in the constructor, ROS init, `main` and `ros::spin`. These are calls into the middleware with no logic.
- Marker header, namespace, type, scale, colour and lifetime setup in `create_roadmap`. These are fixed display settings.
- The wait for a marker subscriber (`getNumSubscribers`, `ros::ok`, `sleep`) and `publish`. These are I/O and timing. Publishing is modelled only as the `markerPoints` field holding the points that are sent.
- Pose contents: `Pose2D` holds floating-point numbers, modelled as reals. They are only copied and never computed on, so NaN and rounding play no part.
- Points have no `z` coordinate: the node never sets it, so it stays 0.
- Serial ids are modelled as strings. The `agent_info` message definition is not part of this model.
- `GetPlan` does not model the service response. The code never writes it, so the response stays default-constructed. The `goalPose` argument is accepted and ignored, as in the code.
- Concurrency between ROS callbacks: the model is sequential.
- Path search, reservations, conflict checking and any use of `archived_paths`: the code has none of them. `archived_paths` is modelled as a field that is never changed.
