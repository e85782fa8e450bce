/**
 The registrar a watcher drives, as the object the watcher sees: what it holds under this
 watcher's keys, and the history of the calls made to it. The verdict on each call is the
 world's; RegistrarBridge shows that the manager keeps this contract.
 */
module Registrars {
  import opened Options
  import opened Ledger

  class Registrar<R> {
    const verdicts: Verdicts
    var held: map<Key, R>
    var calls: seq<Op<R>>

    constructor (verdicts: Verdicts)
      ensures this.verdicts == verdicts && held == map[] && calls == []
    {
      this.verdicts := verdicts;
      held, calls := map[], [];
    }

    /** Nil only once the key is held; an error leaves the registrar as it was. */
    method Register(key: Key, what: R) returns (err: Option<string>)
      modifies this
      ensures calls == old(calls) + [Registers(key, what)]
      ensures err == if key in old(held) then None else verdicts(|old(calls)|)
      ensures held == if key in old(held) || err.Some? then old(held) else old(held)[key := what]
    {
      err := if key in held then None else verdicts(|calls|);
      calls := calls + [Registers(key, what)];
      if key !in held && err.None? {
        held := held[key := what];
      }
    }

    method Deregister(key: Key)
      modifies this
      ensures calls == old(calls) + [Deregisters(key)]
      ensures held == old(held) - {key}
    {
      calls := calls + [Deregisters(key)];
      held := held - {key};
    }
  }
}
