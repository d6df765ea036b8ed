/** From a change in etcd to the predictor that is reconciled for it: the range watcher's reports as the two registry
    listeners read them. */
module RegistryEvents {
  import opened Basics
  import opened EtcdMirror
  import opened EtcdHistory
  import opened Text
  import N = ModelNames

  const MODEL_REGISTRY := "registry"
  const VMODEL_REGISTRY := "vmodels"

  /** The reconcile request the model listener sends for an event, if any. */
  function ModelRequest(e: KeyEvent, namespace: string): Option<Name> {
    if !e.UPDATE? then None
    else
      match N.DecodeModelKey(e.key)
      case None => None
      case Some((name, source)) => Some(Name(source + "_" + namespace, name))
  }

  /** That of the vmodel listener; `owner` reads the owner out of a record, if it can be parsed. */
  function VModelRequest(e: KeyEvent, namespace: string, owner: string -> Option<string>): Option<Name> {
    match e
    case INITIALIZED => None
    case DELETE(_, None) => None
    case DELETE(key, Some(value)) => OwnedBy(owner(value), namespace, key)
    case UPDATE(key, value) => OwnedBy(owner(value), namespace, key)
  }

  function OwnedBy(owner: Option<string>, namespace: string, key: string): Option<Name> {
    if owner.None? then None else Some(Name(N.EventNamespace(owner.value, namespace), key))
  }

  /** The predictor a request is resolved to. */
  function Predictor(request: Option<Name>): Option<(Name, string)> {
    if request.None? then None else Some(N.ResolveSource(request.value, N.PREDICTOR_SOURCE))
  }

  /** The event that step i reports. */
  ghost function Reported(states: seq<Sync>, i: nat): Option<KeyEvent>
    requires i + 1 < |states|
  {
    var before, after := states[i].run.m.sent, states[i + 1].run.m.sent;
    if |after| == |before| + 1 then Some(after[|before|]) else None
  }

  /** In every run of the watcher of a namespace's model registry: putting a concrete model's record makes the listener ask
      for the model's predictor, of that namespace and source, exactly when name and source are not empty, no "__" lies in or
      starts just before the source, and the namespace has no "_".  Deleting it asks for nothing. */
  lemma ModelPutReachesPredictor(states: seq<Sync>, steps: seq<SyncStep>, root: string, controller: string, service: string,
                                 namespace: string, i: nat, name: string, source: string, hash: string)
    requires var prefix := N.WatchPrefix(root, controller, N.Target(namespace, service, MODEL_REGISTRY));
             && SyncRun(states, steps, prefix) && i < |steps| && steps[i].Deliver? && N.IsHash(hash)
             && states[i].phase.Watching? && states[i].phase.pos < |states[i].log|
             && states[i].log[states[i].phase.pos].kv.key == prefix + N.ConcreteModelName(name, source, hash)
    ensures Reported(states, i).Some?
    ensures states[i].log[states[i].phase.pos].PUT? ==>
              (Predictor(ModelRequest(Reported(states, i).value, namespace)) == Some((Name(namespace, name), source)) <==>
               name != "" && source != "" && !Contains("_" + source, "__") && '_' !in namespace)
    ensures states[i].log[states[i].phase.pos].REMOVE? ==> ModelRequest(Reported(states, i).value, namespace) == None
  {
    var prefix := N.WatchPrefix(root, controller, N.Target(namespace, service, MODEL_REGISTRY));
    var key := N.ConcreteModelName(name, source, hash);
    DeliveryReported(states, steps, prefix, i, key);
    N.RoundTripExactly(name, namespace, source, hash);
  }

  /** In every run of the watcher of a namespace's vmodel registry: putting or deleting a vmodel's record asks for the vmodel's
      predictor, of that namespace and with the record's owner as source, exactly when the namespace has no "_"; a deleted
      record is the one the listener was last told of, and if there was none it asks for nothing. */
  lemma VModelReachesPredictor(states: seq<Sync>, steps: seq<SyncStep>, root: string, controller: string, service: string,
                               namespace: string, i: nat, id: string, owner: string -> Option<string>)
    requires var prefix := N.WatchPrefix(root, controller, N.Target(namespace, service, VMODEL_REGISTRY));
             && SyncRun(states, steps, prefix) && i < |steps| && steps[i].Deliver?
             && states[i].phase.Watching? && states[i].phase.pos < |states[i].log|
             && states[i].log[states[i].phase.pos].kv.key == prefix + id
    ensures Reported(states, i).Some?
    ensures var e, told := states[i].log[states[i].phase.pos], Replay(states[i].run.m.sent);
            var record := if e.PUT? then Some(e.kv.value) else if id in told then Some(told[id]) else None;
            var request := VModelRequest(Reported(states, i).value, namespace, owner);
            if record.None? || owner(record.value).None? then request == None
            else var source := owner(record.value).value;
                 Predictor(request) == Some((Name(namespace, id), if source == "" then N.PREDICTOR_SOURCE else source)) <==>
                 '_' !in namespace
  {
    var prefix := N.WatchPrefix(root, controller, N.Target(namespace, service, VMODEL_REGISTRY));
    DeliveryReported(states, steps, prefix, i, id);
    var e, told := states[i].log[states[i].phase.pos], Replay(states[i].run.m.sent);
    var record := if e.PUT? then Some(e.kv.value) else if id in told then Some(told[id]) else None;
    if record.Some? && owner(record.value).Some? {
      N.ResolveExactly(owner(record.value).value, namespace, id, N.PREDICTOR_SOURCE);
    }
  }
}
