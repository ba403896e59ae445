/**
 The optimistic storage: an update replaces the stored row only if the row still carries the
 changed timestamp of the entity it was computed from. Every write takes a timestamp of its own.
 */
module Storage {
  import opened Wrappers

  /** A zero changed time is None. */
  datatype Entity<+P> = Entity(payload: P, changed: Option<int>, generation: nat)

  datatype Db<P> = Db(rows: map<string, Entity<P>>, clock: int)

  datatype StorageError = NoTimestamp | AlreadyModified | NotFound | Conflict

  function Created<P>(db: Db<P>, id: string, payload: P): (Db<P>, Result<Entity<P>, StorageError>) {
    var now := db.clock + 1;
    var e := Entity(payload, Some(now), 0);
    if id in db.rows then (db.(clock := now), Err(Conflict))
    else (Db(db.rows[id := e], now), Ok(e))
  }

  /** The entity as the update leaves it in memory, whether or not the write succeeds. */
  function Stamped<P>(db: Db<P>, e: Entity<P>): Entity<P> {
    e.(changed := Some(db.clock + 1), generation := e.generation + 1)
  }

  function Updated<P>(db: Db<P>, id: string, e: Entity<P>): (Db<P>, Option<StorageError>) {
    if e.changed.None? then (db, Some(NoTimestamp))
    else
      var now := db.clock + 1;
      if id !in db.rows then (db.(clock := now), Some(NotFound))
      else if db.rows[id].changed == e.changed then (Db(db.rows[id := Stamped(db, e)], now), None)
      else (db.(clock := now), Some(AlreadyModified))
  }

  /** An entity in the memory of one api server; storage writes its timestamp and generation. */
  class Record<P> {
    const id: string
    var payload: P
    var changed: Option<int>
    var generation: nat

    constructor (id: string, e: Entity<P>)
      ensures this.id == id && Value() == e
    {
      this.id := id;
      payload, changed, generation := e.payload, e.changed, e.generation;
    }

    function Value(): Entity<P>
      reads this
    {
      Entity(payload, changed, generation)
    }
  }

  class Table<P> {
    var rows: map<string, Entity<P>>
    var clock: int

    constructor ()
      ensures Value() == Db(map[], 0)
    {
      rows, clock := map[], 0;
    }

    function Value(): Db<P>
      reads this
    {
      Db(rows, clock)
    }

    method Now() returns (now: int)
      modifies this`clock
      ensures now == clock == old(clock) + 1
    {
      clock := clock + 1;
      now := clock;
    }

    method Create(e: Record<P>) returns (error: Option<StorageError>)
      modifies this, e
      ensures Value() == Created(old(Value()), e.id, old(e.payload)).0
      ensures match Created(old(Value()), e.id, old(e.payload)).1
              case Ok(created) => error.None? && e.Value() == created
              case Err(x) => error == Some(x)
    {
      var now := Now();
      e.changed := Some(now);
      e.generation := 0;
      if e.id in rows {
        return Some(Conflict);
      }
      rows := rows[e.id := e.Value()];
      error := None;
    }

    method Get(id: string) returns (r: Result<Record<P>, StorageError>)
      ensures id !in rows ==> r == Err(StorageError.NotFound)
      ensures id in rows ==> r.Ok? && fresh(r.value) && r.value.id == id && r.value.Value() == rows[id]
    {
      if id !in rows {
        return Err(StorageError.NotFound);
      }
      var e := new Record(id, rows[id]);
      r := Ok(e);
    }

    method Update(e: Record<P>) returns (error: Option<StorageError>)
      modifies this, e
      ensures (Value(), error) == Updated(old(Value()), e.id, old(e.Value()))
      ensures e.Value() == if old(e.changed).None? then old(e.Value()) else Stamped(old(Value()), old(e.Value()))
    {
      if e.changed.None? {
        return Some(NoTimestamp);
      }
      var expected := e.changed;
      var now := Now();
      e.changed := Some(now);
      e.generation := e.generation + 1;
      if e.id !in rows {
        return Some(StorageError.NotFound);
      }
      if rows[e.id].changed != expected {
        return Some(AlreadyModified);
      }
      rows := rows[e.id := e.Value()];
      error := None;
    }
  }
}
