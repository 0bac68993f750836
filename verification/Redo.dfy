/** The redo executor, its tasks, and the register and deregister flows that fill it. */
module Redo {
  import opened Wrappers
  import opened RedoModel

  class NamingRedoTask {
    var active: bool
    const request: Request

    constructor (request: Request)
      ensures this.request == request && !active
    {
      this.request := request;
      active := false;
    }

    function AsTask(): Task
      reads this
    {
      Task(request, active)
    }

    method Frozen()
      modifies this
      ensures !active
    {
      active := false;
    }

    method Activate()
      modifies this
      ensures active
    {
      active := true;
    }

    /** Sends the request; the callback clears the flag on success and sets it on failure. */
    method Run(sent: bool)
      modifies this
      ensures active == !sent
    {
      if sent {
        active := false;
      } else {
        active := true;
      }
    }
  }

  class RedoTaskExecutor {
    var tasks: map<string, NamingRedoTask>

    /** Each task stands under its own key, so no task stands under two. */
    ghost predicate Valid()
      reads this, tasks.Values
    {
      forall k :: k in tasks ==> tasks[k].request.Key() == k
    }

    ghost function Current(): map<string, Task>
      reads this, tasks.Values
    {
      map k | k in tasks :: tasks[k].AsTask()
    }

    constructor ()
      ensures Valid() && Current() == map[] && tasks == map[]
    {
      tasks := map[];
    }

    method AddTask(task: NamingRedoTask)
      requires Valid()
      modifies this
      ensures Valid()
      ensures tasks == old(tasks)[task.request.Key() := task]
      ensures Current() == old(Current())[task.request.Key() := task.AsTask()]
    {
      tasks := tasks[task.request.Key() := task];
    }

    method RemoveTask(key: string)
      requires Valid()
      modifies this
      ensures Valid()
      ensures tasks == old(tasks) - {key}
      ensures Current() == old(Current()) - {key}
    {
      tasks := tasks - {key};
    }

    /** Marks every task as to be replayed. */
    method OnGrpcClientReconnect()
      requires Valid()
      modifies tasks.Values
      ensures Valid()
      ensures forall k :: k in tasks ==> tasks[k].active
      ensures Current() == AllSet(old(Current()), true)
    {
      hide Request.Key;
      var left := tasks.Keys;
      while left != {}
        invariant left <= tasks.Keys
        invariant Valid()
        invariant forall k :: k in tasks && k !in left ==> tasks[k].active
        decreases |left|
      {
        var key :| key in left;
        tasks[key].Activate();
        left := left - {key};
      }
    }

    method OnGrpcClientDisconnect()
      requires Valid()
      modifies tasks.Values
      ensures Valid()
      ensures forall k :: k in tasks ==> !tasks[k].active
      ensures Current() == AllSet(old(Current()), false)
    {
      hide Request.Key;
      var left := tasks.Keys;
      while left != {}
        invariant left <= tasks.Keys
        invariant Valid()
        invariant forall k :: k in tasks && k !in left ==> !tasks[k].active
        decreases |left|
      {
        var key :| key in left;
        tasks[key].Frozen();
        left := left - {key};
      }
    }

    /** One tick without connection events. `sendOk` says which sends succeed; `sent` is the keys
        sent, in the order of the snapshot. The map cannot change during the tick, whose read
        guard lives to its end. */
    method Tick(sendOk: string -> bool) returns (sent: seq<string>)
      requires Valid()
      modifies tasks.Values
      ensures Valid()
      ensures Current() == Ticked(old(Current()), sendOk)
      ensures forall i, j :: 0 <= i < j < |sent| ==> sent[i] != sent[j]
      ensures forall k :: k in sent <==> k in old(Current()) && old(Current())[k].active
    {
      hide Request.Key;
      var activeKeys := ActiveKeys();
      sent := activeKeys;
      for i := 0 to |activeKeys|
        invariant Valid()
        invariant forall k :: k in tasks && k !in activeKeys[..i] ==> tasks[k].active == old(tasks[k].active)
        invariant forall k :: k in activeKeys[..i] ==> tasks[k].active == !sendOk(k)
      {
        var key := activeKeys[i];
        tasks[key].Run(sendOk(key));
        assert activeKeys[..i + 1] == activeKeys[..i] + [key];
        assert key !in activeKeys[..i];
      }
      assert activeKeys[..|activeKeys|] == activeKeys;
    }

    /** The snapshot of the active tasks, in whatever order the map gives them. */
    method ActiveKeys() returns (keys: seq<string>)
      ensures forall i, j :: 0 <= i < j < |keys| ==> keys[i] != keys[j]
      ensures forall k :: k in keys <==> k in tasks && tasks[k].active
    {
      keys := [];
      hide Request.Key;
      var left := tasks.Keys;
      while left != {}
        invariant left <= tasks.Keys
        invariant forall k :: k in keys <==> k in tasks && k !in left && tasks[k].active
        invariant forall i, j :: 0 <= i < j < |keys| ==> keys[i] != keys[j]
        decreases |left|
      {
        var key :| key in left;
        if tasks[key].active {
          keys := keys + [key];
        }
        left := left - {key};
      }
    }
  }

  /** How a request to the server ends. */
  datatype Reply = TransportError | Rejected | Accepted

  /** The tasks on values. */
  ghost function AsTasks(created: seq<NamingRedoTask>): (tasks: seq<Task>)
    reads created
    ensures |tasks| == |created|
    ensures forall i :: 0 <= i < |created| ==> tasks[i] == created[i].AsTask()
  {
    seq(|created|, i requires 0 <= i < |created| reads created => created[i].AsTask())
  }

  class NacosNamingService {
    const redoTaskExecutor: RedoTaskExecutor
    var created: seq<NamingRedoTask>  // every task its calls, callbacks and the map hold or held
    ghost var entries: map<string, nat>  // where the tasks of the map are among them

    ghost predicate Valid()
      reads this, redoTaskExecutor, redoTaskExecutor.tasks.Values
    {
      && redoTaskExecutor.Valid()
      && (forall i, j :: 0 <= i < j < |created| ==> created[i] != created[j])
      && entries.Keys == redoTaskExecutor.tasks.Keys
      && forall k :: k in entries ==> entries[k] < |created| && created[entries[k]] == redoTaskExecutor.tasks[k]
    }

    ghost function Model(): Redo
      reads this, created
    {
      Redo(entries, AsTasks(created))
    }

    constructor (redoTaskExecutor: RedoTaskExecutor)
      requires redoTaskExecutor.tasks == map[]
      ensures this.redoTaskExecutor == redoTaskExecutor
      ensures Valid() && Model() == NOTHING
    {
      this.redoTaskExecutor, created, entries := redoTaskExecutor, [], map[];
    }

    /** Puts an active task for the request into the map. */
    method BeginRegister(request: Request) returns (redoTask: NamingRedoTask)
      requires Valid()
      modifies this, redoTaskExecutor
      ensures Valid() && fresh(redoTask) && created == old(created) + [redoTask]
      ensures Model() == Apply(old(Model()), RegisterBegin(request))
    {
      hide Request.Key, Apply, Valid;
      ghost var before := Model();
      redoTask := NewActiveTask(request);
      Place(redoTask);
      BegunOnValues(before, request);
    }

    method NewActiveTask(request: Request) returns (redoTask: NamingRedoTask)
      requires Valid()
      modifies this`created
      ensures Valid() && fresh(redoTask) && created == old(created) + [redoTask]
      ensures redoTask.request == request
      ensures Model() == old(Model()).(tasks := old(Model()).tasks + [Task(request, true)])
    {
      hide Request.Key, Apply;
      ghost var before := Model();
      redoTask := new NamingRedoTask(request);
      redoTask.Activate();
      created := created + [redoTask];
      assert AsTasks(created) == before.tasks + [Task(request, true)];
    }

    /** The task made last takes its key. */
    method Place(redoTask: NamingRedoTask)
      requires Valid() && created != [] && created[|created| - 1] == redoTask
      modifies this`entries, redoTaskExecutor
      ensures Valid()
      ensures Model() == old(Model()).(entries := old(Model()).entries[redoTask.request.Key() := |created| - 1])
    {
      hide Request.Key, RedoTaskExecutor.Current;
      redoTaskExecutor.AddTask(redoTask);
      entries := entries[redoTask.request.Key() := |created| - 1];
    }

    /** The reply to a register call has come: its own task is frozen when the server accepts it. */
    method EndRegister(task: nat, reply: Reply) returns (r: Result<(), Reply>)
      requires Valid() && task < |created|
      modifies created
      ensures Valid()
      ensures r == if reply.Accepted? then Success(()) else Failure(reply)
      ensures Model() == Apply(old(Model()), if reply.Accepted? then RegisterOk(task) else RegisterFailed(task))
    {
      hide Request.Key;
      if !reply.Accepted? {
        return Failure(reply);
      }
      created[task].Frozen();
      return Success(());
    }

    /** A whole register call. The task is active and in the map before the request goes out, and
        anything may happen before the reply comes. */
    method ExecuteByRegisterWithRedo(request: Request, meanwhile: seq<Event>, reply: Reply)
      returns (r: Result<(), Reply>)
      requires Valid()
      modifies this, redoTaskExecutor, created
      ensures Valid()
      ensures r == if reply.Accepted? then Success(()) else Failure(reply)
      ensures var task := |old(created)|;
              Model() == Apply(ApplyAll(Apply(old(Model()), RegisterBegin(request)), meanwhile),
                               if reply.Accepted? then RegisterOk(task) else RegisterFailed(task))
    {
      hide Apply, Request.Key;
      ghost var before := Model();
      var task := |created|;
      var _ := BeginRegister(request);
      HappenAll(meanwhile);
      r := EndRegister(task, reply);
    }

    /** A whole deregister call: what is in the map under the key when the server has accepted is
        removed, whatever happened before the reply. */
    method ExecuteByDeregisterWithRedo(request: Request, meanwhile: seq<Event>, reply: Reply)
      returns (r: Result<(), Reply>)
      requires Valid()
      modifies this, redoTaskExecutor, created
      ensures Valid()
      ensures r == if reply.Accepted? then Success(()) else Failure(reply)
      ensures Model() == Apply(ApplyAll(old(Model()), meanwhile),
                               if reply.Accepted? then DeregisterOk(request) else DeregisterFailed(request))
    {
      hide Request.Key;
      HappenAll(meanwhile);
      if !reply.Accepted? {
        return Failure(reply);
      }
      EndDeregister(request);
      return Success(());
    }

    method EndDeregister(request: Request)
      requires Valid()
      modifies this, redoTaskExecutor
      ensures Valid() && created == old(created)
      ensures Model() == Apply(old(Model()), DeregisterOk(request))
    {
      hide Request.Key, RedoTaskExecutor.Current;
      redoTaskExecutor.RemoveTask(request.Key());
      entries := entries - {request.Key()};
    }

    /** What the two connection callbacks do, once the tasks they spawn get to run. */
    method ConnectionChanged(connected: bool)
      requires Valid()
      modifies created
      ensures Valid()
      ensures Model() == Apply(old(Model()), if connected then Reconnect else Disconnect)
    {
      hide Request.Key, RedoTaskExecutor.Current, AllSet, Apply;
      ghost var before := Model();
      if connected {
        redoTaskExecutor.OnGrpcClientReconnect();
      } else {
        redoTaskExecutor.OnGrpcClientDisconnect();
      }
      forall i | 0 <= i < |created|
        ensures created[i].active == if i in entries.Values then connected else old(created[i].active)
      {
        if created[i] in redoTaskExecutor.tasks.Values {
          var k :| k in entries && redoTaskExecutor.tasks[k] == created[i];
          assert entries[k] == i;
        }
      }
      SetAll(before, Model(), connected);
    }

    /** One replay of a task. */
    method RunTask(task: nat, sent: bool)
      requires Valid() && task < |created|
      modifies created
      ensures Valid()
      ensures Model() == Apply(old(Model()), if sent then SendOk(task) else SendFailed(task))
    {
      hide Request.Key;
      created[task].Run(sent);
    }

    /** One step of the other tasks of the client: on the objects it does what it does on values. */
    method Happen(e: Event)
      requires Valid()
      modifies this, redoTaskExecutor, created
      ensures Valid()
      ensures old(created) <= created && forall i :: |old(created)| <= i < |created| ==> fresh(created[i])
      ensures Model() == Apply(old(Model()), e)
    {
      hide Request.Key;
      if (e.RegisterOk? || e.RegisterFailed? || e.SendOk? || e.SendFailed?) && e.task >= |created| {
        NoSuchTask(Model(), e);
        return;
      }
      hide Apply;
      match e
      case RegisterBegin(request) =>
        var _ := BeginRegister(request);
      case RegisterOk(task) =>
        var _ := EndRegister(task, Accepted);
      case RegisterFailed(task) =>
        var _ := EndRegister(task, Rejected);
      case DeregisterOk(request) =>
        EndDeregister(request);
      case DeregisterFailed(request) =>
        DeregisterFailedChangesNothing(Model(), request);
      case Reconnect =>
        ConnectionChanged(true);
      case Disconnect =>
        ConnectionChanged(false);
      case SendOk(task) =>
        RunTask(task, true);
      case SendFailed(task) =>
        RunTask(task, false);
    }

    /** Any interleaving of such steps. */
    method HappenAll(events: seq<Event>)
      requires Valid()
      modifies this, redoTaskExecutor, created
      ensures Valid()
      ensures old(created) <= created && forall i :: |old(created)| <= i < |created| ==> fresh(created[i])
      ensures Model() == ApplyAll(old(Model()), events)
    {
      hide Apply;
      for n := 0 to |events|
        invariant Valid()
        invariant old(created) <= created && forall i :: |old(created)| <= i < |created| ==> fresh(created[i])
        invariant Model() == ApplyAll(old(Model()), events[..n])
      {
        assert events[..n + 1][..n] == events[..n];
        Happen(events[n]);
      }
      assert events[..|events|] == events;
    }

    /** The map as the executor sees it is the map as the model sees it. */
    lemma CurrentIsView()
      requires Valid()
      ensures WellKeyed(Model())
      ensures redoTaskExecutor.Current() == View(Model())
    {
      hide Request.Key;
    }
  }

  lemma SetAll(s: Redo, after: Redo, active: bool)
    requires after.entries == s.entries && |after.tasks| == |s.tasks|
    requires forall i :: 0 <= i < |s.tasks| ==>
      after.tasks[i] == if i in s.entries.Values then s.tasks[i].(active := active) else s.tasks[i]
    ensures after == Apply(s, if active then Reconnect else Disconnect)
  {
  }

  lemma BegunOnValues(s: Redo, request: Request)
    ensures Apply(s, RegisterBegin(request)) ==
            Redo(s.entries[request.Key() := |s.tasks|], s.tasks + [Task(request, true)])
  {
  }

  lemma NoSuchTask(s: Redo, e: Event)
    requires e.RegisterOk? || e.RegisterFailed? || e.SendOk? || e.SendFailed?
    requires e.task >= |s.tasks|
    ensures Apply(s, e) == s
  {
  }

  lemma DeregisterFailedChangesNothing(s: Redo, request: Request)
    ensures Apply(s, DeregisterFailed(request)) == s
  {
  }
}
