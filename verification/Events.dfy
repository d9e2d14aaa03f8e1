/**
 * The agent store's events. Fields the fold never inspects (model, effort,
 * placement, pane, cwd, batch, notes, links and so on) are carried unread in
 * `rest`. Times are integers: only their order matters.
 */
module Events {
  /** Event kinds. The three open constructors keep every other kind string, grouped by the prefixes the code tests. */
  datatype Kind =
    | LaunchRequested | LaunchReady | LaunchFailed
    | CullRequested | Culled
    | Resume | Fork | CompactRequested | Assign | Annotate
    | MirrorCreated | MirrorReady | MirrorStopped | MirrorBatch
    | SessionObserved | SessionEnded | SessionSuperseded
    | LaneCreated | LaneUpdated | LaneLink
    | OtherLane(text: string) | OtherMirror(text: string) | Other(text: string)

  datatype Event = Event(
    id: string, at: int, kind: Kind,
    actor: string, actorKind: string, name: string, request: string,
    tool: string, tag: string, launcherKind: string,
    session: string, reason: string, fromSession: string, fromName: string,
    group: string, clearGroup: bool, manager: string,
    instances: seq<string>, parentName: string, path: string,
    lane: string, laneName: string, lead: string,
    rest: string)

  predicate IsLaneKind(k: Kind) {
    k.LaneCreated? || k.LaneUpdated? || k.LaneLink? || k.OtherLane?
  }

  predicate IsMirrorKind(k: Kind) {
    k.MirrorCreated? || k.MirrorReady? || k.MirrorStopped? || k.MirrorBatch? || k.OtherMirror?
  }

  /** Kinds that close an incarnation. */
  predicate Closes(k: Kind) {
    k.Culled? || k.LaunchFailed? || k.MirrorStopped?
  }

  /** Kinds that never open a new incarnation. */
  predicate Attaches(k: Kind) {
    Closes(k) || k.CullRequested? || k.SessionEnded? || k.SessionSuperseded?
  }
}
