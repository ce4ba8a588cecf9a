/** The registry as an object. Each method is one critical section. */
module ConnectionRegistries {
  import opened Registry

  class ConnectionRegistry {
    var connections: map<nat, nat>
    var next: nat
    var stopping: bool

    ghost function Value(): Registry
      reads this
    {
      Registry(connections, next, stopping)
    }

    ghost predicate Valid()
      reads this
    {
      Sound(Value())
    }

    constructor ()
      ensures Valid() && Value() == EMPTY
    {
      connections, next, stopping := map[], 1, false;
    }

    /** A token is never zero and never one that was handed out before; a stopping
        registry hands out none. */
    method Add(fd: nat) returns (token: nat)
      requires Valid()
      modifies this
      ensures Valid() && (Value(), token) == Added(old(Value()), fd)
      ensures token == 0 <==> old(stopping)
      ensures token !in old(connections)
    {
      if stopping {
        return 0;
      }
      token := next;
      next := next + 1;
      connections := connections[token := fd];
    }

    method Remove(token: nat)
      requires Valid()
      modifies this
      ensures Valid() && Value() == Removed(old(Value()), token)
    {
      connections := connections - {token};
    }

    /** Latches, and gives the tokens in the order their descriptors are shut down:
        each registered one exactly once. */
    method StopAll() returns (shut: seq<nat>)
      requires Valid()
      modifies this
      ensures Valid() && Value() == old(Value()).(stopping := true)
      ensures |shut| == |connections| && (forall t :: t in shut <==> t in connections)
      ensures forall i, j :: 0 <= i < j < |shut| ==> shut[i] != shut[j]
    {
      stopping := true;
      shut := [];
      var todo := connections.Keys;
      while todo != {}
        invariant todo <= connections.Keys && |shut| + |todo| == |connections|
        invariant forall t :: t in shut <==> t in connections && t !in todo
        invariant forall i, j :: 0 <= i < j < |shut| ==> shut[i] != shut[j]
        decreases |todo|
      {
        var t :| t in todo;
        shut := shut + [t];
        todo := todo - {t};
      }
    }
  }
}
