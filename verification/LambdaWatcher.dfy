/**
 The Lambda watcher (lambda/watcher.go): list every tagged function, then diff and sweep. A cycle
 that cannot list does nothing at all.
 */
module LambdaWatcher {
  import opened Options
  import opened Paging
  import opened Ledger
  import opened Registrars
  import L = Labels
  import Caps = ServiceIndex

  datatype Tag = Tag(key: string, value: string)

  datatype Function = Function(service: string, caps: seq<string>, arn: string, qualifier: string)

  /** What the watcher compares of a registration: the caps sorted and joined. */
  datatype Registration = Registration(service: string, caps: string, qualifier: string)

  function RegistrationOf(fn: Function): Registration {
    Registration(fn.service, L.CapsText(fn.caps), fn.qualifier)
  }

  const QUALIFIER := "tsserve.qualifier"

  predicate AliasChar(c: char) {
    'A' <= c <= 'Z' || 'a' <= c <= 'z' || '0' <= c <= '9' || c == '_' || c == '-'
  }

  predicate ValidQualifier(q: string) {
    q == "$LATEST" || (1 <= |q| <= 128 && forall c :: c in q ==> AliasChar(c))
  }

  /** The last tag of a key wins. */
  function TagValues(tags: seq<Tag>): map<string, string> {
    if tags == [] then map[]
    else TagValues(tags[..|tags| - 1])[tags[|tags| - 1].key := tags[|tags| - 1].value]
  }

  datatype ParsedFunction = Valid(fn: Function) | Rejected(text: string)

  function Parse(arn: string, tags: seq<Tag>): ParsedFunction {
    var values := TagValues(tags);
    var svc, q := L.Get(values, L.SERVICE), L.Get(values, QUALIFIER);
    if !L.ValidService(svc) then Rejected("service")
    else if q != "" && !ValidQualifier(q) then Rejected("qualifier")
    else Valid(Function(svc, L.ParseCaps(L.Get(values, L.CAPS)), arn, q))
  }

  /** The value of the last tag of this key; the empty string if there is none. */
  ghost predicate TagIs(tags: seq<Tag>, key: string, value: string) {
    || (exists i :: 0 <= i < |tags| && LastTag(tags, i, key) && tags[i].value == value)
    || (value == "" && forall i :: 0 <= i < |tags| ==> tags[i].key != key)
  }

  ghost predicate LastTag(tags: seq<Tag>, i: nat, key: string)
    requires i < |tags|
  {
    tags[i].key == key && forall j :: i < j < |tags| ==> tags[j].key != key
  }

  lemma TagIsOne(tags: seq<Tag>, key: string, x: string, y: string)
    requires TagIs(tags, key, x) && TagIs(tags, key, y)
    ensures x == y
  {
    if i :| 0 <= i < |tags| && LastTag(tags, i, key) && tags[i].value == x {
      var j :| 0 <= j < |tags| && LastTag(tags, j, key) && tags[j].value == y;
    }
  }

  lemma {:induction false} TagValueIs(tags: seq<Tag>, key: string)
    ensures TagIs(tags, key, L.Get(TagValues(tags), key))
  {
    if tags != [] {
      var last := |tags| - 1;
      TagValueIs(tags[..last], key);
      if tags[last].key == key {
        assert LastTag(tags, last, key);
      } else {
        var value := L.Get(TagValues(tags[..last]), key);
        if i :| 0 <= i < last && LastTag(tags[..last], i, key) && tags[..last][i].value == value {
          assert LastTag(tags, i, key);
        }
      }
    }
  }

  /** The tags name a service and, if they name a qualifier, an acceptable one. */
  ghost predicate Acceptable(tags: seq<Tag>) {
    exists svc, q :: TagIs(tags, "tsserve.service", svc) && TagIs(tags, "tsserve.qualifier", q)
      && "svc:" <= svc && (q == "" || ValidQualifier(q))
  }

  /** Parsing, by the tags alone: accepted exactly if acceptable, and then every field of the function
      is the value of its own tag. */
  lemma ParsedFromTags(arn: string, tags: seq<Tag>, svc: string, q: string, caps: string)
    requires TagIs(tags, "tsserve.service", svc) && TagIs(tags, "tsserve.qualifier", q) && TagIs(tags, "tsserve.caps", caps)
    ensures Parse(arn, tags).Valid? <==> Acceptable(tags)
    ensures Acceptable(tags) ==> Parse(arn, tags) == Valid(Function(svc, L.ParseCaps(caps), arn, q))
  {
    TagValueIs(tags, "tsserve.service");
    TagValueIs(tags, "tsserve.qualifier");
    TagValueIs(tags, "tsserve.caps");
    TagIsOne(tags, "tsserve.service", svc, L.Get(TagValues(tags), "tsserve.service"));
    TagIsOne(tags, "tsserve.qualifier", q, L.Get(TagValues(tags), "tsserve.qualifier"));
    TagIsOne(tags, "tsserve.caps", caps, L.Get(TagValues(tags), "tsserve.caps"));
    if Acceptable(tags) {
      AcceptableAs(tags, svc, q);
    }
  }

  lemma ParsedIsTags(arn: string, tags: seq<Tag>)
    ensures Parse(arn, tags).Valid? <==> Acceptable(tags)
    ensures Parse(arn, tags).Valid? ==> forall svc, q, caps ::
      TagIs(tags, "tsserve.service", svc) && TagIs(tags, "tsserve.qualifier", q) && TagIs(tags, "tsserve.caps", caps) ==>
        Parse(arn, tags).fn == Function(svc, L.ParseCaps(caps), arn, q)
  {
    if !Acceptable(tags) {
      UnacceptableRejected(arn, tags);
    } else {
      var values := TagValues(tags);
      TagValueIs(tags, "tsserve.service");
      TagValueIs(tags, "tsserve.qualifier");
      TagValueIs(tags, "tsserve.caps");
      ParsedFromTags(arn, tags, L.Get(values, "tsserve.service"), L.Get(values, "tsserve.qualifier"), L.Get(values, "tsserve.caps"));
      forall svc, q, caps | TagIs(tags, "tsserve.service", svc) && TagIs(tags, "tsserve.qualifier", q) && TagIs(tags, "tsserve.caps", caps)
        ensures Parse(arn, tags).fn == Function(svc, L.ParseCaps(caps), arn, q)
      {
        ParsedFromTags(arn, tags, svc, q, caps);
      }
    }
  }

  lemma AcceptableAs(tags: seq<Tag>, svc: string, q: string)
    requires Acceptable(tags) && TagIs(tags, "tsserve.service", svc) && TagIs(tags, "tsserve.qualifier", q)
    ensures "svc:" <= svc && (q == "" || ValidQualifier(q))
  {
    var svc', q' :| TagIs(tags, "tsserve.service", svc') && TagIs(tags, "tsserve.qualifier", q')
      && "svc:" <= svc' && (q' == "" || ValidQualifier(q'));
    TagIsOne(tags, "tsserve.service", svc, svc');
    TagIsOne(tags, "tsserve.qualifier", q, q');
  }

  method ParseFunction(arn: string, tags: seq<Tag>) returns (r: ParsedFunction)
    ensures r == Parse(arn, tags)
    ensures r.Valid? <==> Acceptable(tags)
    ensures r.Valid? ==> forall svc, q, caps ::
      TagIs(tags, "tsserve.service", svc) && TagIs(tags, "tsserve.qualifier", q) && TagIs(tags, "tsserve.caps", caps) ==>
        r.fn == Function(svc, L.ParseCaps(caps), arn, q)
    ensures r.Valid? ==> r.fn.arn == arn && "svc:" <= r.fn.service
    ensures r.Valid? ==> r.fn.qualifier == "" || ValidQualifier(r.fn.qualifier)
  {
    ParsedIsTags(arn, tags);
    var values := map[];
    for i := 0 to |tags|
      invariant values == TagValues(tags[..i])
    {
      assert tags[..i + 1][..i] == tags[..i];
      values := values[tags[i].key := tags[i].value];
    }
    assert tags[..|tags|] == tags;
    var svc := L.Get(values, L.SERVICE);
    if !L.ValidService(svc) {
      return Rejected("service");
    }
    var q := L.Get(values, QUALIFIER);
    if q != "" && !ValidQualifier(q) {
      return Rejected("qualifier");
    }
    var caps := L.ParseCapsLoop(L.Get(values, L.CAPS));
    return Valid(Function(svc, caps, arn, q));
  }

  // ------------------------------------------------------------------ caps as the manager sees them

  /** Equal registrations mean permuted caps, hence caps the manager takes for the same set. */
  lemma EqualRegistrationsSameCaps(arn: string, x: seq<Tag>, y: seq<Tag>)
    requires Parse(arn, x).Valid? && Parse(arn, y).Valid?
    ensures
      var f, g := Parse(arn, x).fn, Parse(arn, y).fn;
      && (RegistrationOf(f) == RegistrationOf(g) <==>
            f.service == g.service && f.qualifier == g.qualifier && multiset(f.caps) == multiset(g.caps))
      && (RegistrationOf(f) == RegistrationOf(g) ==> Caps.SameCaps(f.caps, g.caps))
  {
    var f, g := Parse(arn, x).fn, Parse(arn, y).fn;
    L.CapsTextIff(f.caps, g.caps);
    if RegistrationOf(f) == RegistrationOf(g) {
      SameElements(f.caps, g.caps);
    }
  }

  lemma SameElements(a: seq<string>, b: seq<string>)
    requires multiset(a) == multiset(b)
    ensures Caps.SameCaps(a, b)
  {
    assert forall c :: c in a <==> c in multiset(a);
    assert forall c :: c in b <==> c in multiset(b);
  }

  /** The tags of a function of service svc:a with these caps. */
  function TagsOf(caps: string): seq<Tag> {
    [Tag(L.SERVICE, "svc:a"), Tag(L.CAPS, caps)]
  }

  lemma ParsedTags(arn: string, caps: string)
    ensures Parse(arn, TagsOf(caps)) == Valid(Function("svc:a", L.ParseCaps(caps), arn, ""))
  {
    var tags := TagsOf(caps);
    assert tags[..1] == [tags[0]] && [tags[0]][..0] == [];
    assert TagValues([tags[0]]) == map[L.SERVICE := "svc:a"];
    assert TagValues(tags) == map[L.SERVICE := "svc:a"][L.CAPS := caps];
    assert |QUALIFIER| != |L.SERVICE| && |QUALIFIER| != |L.CAPS| && |L.SERVICE| != |L.CAPS|;
    assert "svc:" <= "svc:a";
  }

  lemma ParsedCaps()
    ensures L.ParseCaps("a,a") == ["a", "a"] && L.ParseCaps("a") == ["a"]
  {
    assert L.CapName("a");
    assert L.Join(["a"]) == "a" && ["a", "a"][1..] == ["a"] && L.Join(["a", "a"]) == "a,a";
    L.ParseJoined(["a", "a"]);
    L.ParseJoined(["a"]);
  }

  lemma TextsDiffer()
    ensures Caps.SameCaps(["a", "a"], ["a"])
    ensures L.CapsText(["a", "a"]) != L.CapsText(["a"])
  {
    assert L.CapName("a");
    L.CapsTextIff(["a", "a"], ["a"]);
    assert multiset(["a", "a"])["a"] != multiset(["a"])["a"];
  }

  /** The converse fails: tagged `a,a` instead of `a`, a function has the caps the manager takes for
      the same set, and another registration. */
  lemma RepeatedCapDiffers(arn: string)
    ensures
      var x, y := Parse(arn, TagsOf("a,a")), Parse(arn, TagsOf("a"));
      && x.Valid? && y.Valid?
      && Caps.SameCaps(x.fn.caps, y.fn.caps)
      && RegistrationOf(x.fn) != RegistrationOf(y.fn)
  {
    ParsedTags(arn, "a,a");
    ParsedTags(arn, "a");
    ParsedCaps();
    TextsDiffer();
  }

  // ------------------------------------------------------------------ listing

  datatype Mapping = Mapping(arn: Option<string>, tags: seq<Tag>)

  datatype Answers = Answers(account: bool, tagged: Listing<Mapping>)

  method ListTagged(l: Listing<Mapping>) returns (all: Option<seq<Mapping>>)
    ensures all == AllFrom(l, 0)
  {
    var got: seq<Mapping> := [];
    var p := 0;
    assert forall rest: seq<Mapping> :: got + rest == rest;
    while true
      invariant AllFrom(l, 0) ==
        (var rest := AllFrom(l, p); if rest.None? then None else Some(got + rest.value))
      decreases l.pages - p
    {
      if !Answered(l, p) {
        return None;
      }
      var page := l.page(p).value;
      var more := got + page.items;
      if !More(page) {
        return Some(more);
      }
      assert forall rest: seq<Mapping> :: got + (page.items + rest) == more + rest;
      got, p := more, p + 1;
    }
  }

  // ------------------------------------------------------------------ one function

  type LambdaBook = Book<Registration, Function>

  function RegisterNote(err: string): string {
    "registration failed; will retry next cycle: " + err
  }

  function InvalidNote(err: string): string {
    "invalid function tags; skipping: " + err
  }

  /** `apply`. */
  function ApplyFunction(bk: LambdaBook, fn: Function, v: Verdicts): LambdaBook {
    var want := RegistrationOf(fn);
    if fn.arn in bk.active && bk.active[fn.arn] == want then bk.(failed := bk.failed - {fn.arn})
    else Offer(bk, fn.arn, want, fn, v, RegisterNote)
  }

  function ArnOf(m: Mapping): string {
    if m.arn.Some? then m.arn.value else ""
  }

  /** One mapping; one without an ARN is skipped. */
  function ApplyMapping(bk: LambdaBook, m: Mapping, v: Verdicts): LambdaBook {
    if ArnOf(m) == "" then bk
    else match Parse(ArnOf(m), m.tags)
         case Rejected(text) => bk.(failed := bk.failed[ArnOf(m) := InvalidNote(text)])
         case Valid(fn) => ApplyFunction(bk, fn, v)
  }

  function ApplyAll(bk: LambdaBook, ms: seq<Mapping>, v: Verdicts): LambdaBook {
    if ms == [] then bk else ApplyMapping(ApplyAll(bk, ms[..|ms| - 1], v), ms[|ms| - 1], v)
  }

  function Seen(ms: seq<Mapping>): set<Key> {
    set i | 0 <= i < |ms| && ArnOf(ms[i]) != "" :: ArnOf(ms[i])
  }

  lemma MappingAgrees(bk: LambdaBook, m: Mapping, v: Verdicts)
    requires Agrees(bk, RegistrationOf)
    ensures Agrees(ApplyMapping(bk, m, v), RegistrationOf)
  {
    if ArnOf(m) != "" && Parse(ArnOf(m), m.tags).Valid? {
      var fn := Parse(ArnOf(m), m.tags).fn;
      OfferAgrees(bk, fn.arn, RegistrationOf(fn), fn, v, RegisterNote, RegistrationOf);
    }
  }

  class Watcher {
    const reg: Registrar<Function>
    var active: map<Key, Registration>
    var failed: map<Key, string>
    var accountResolved: bool

    constructor (reg: Registrar<Function>)
      requires reg.held == map[]
      ensures this.reg == reg && Valid() && active == map[] && failed == map[] && !accountResolved
    {
      this.reg := reg;
      active, failed, accountResolved := map[], map[], false;
    }

    ghost function View(): LambdaBook
      reads this, reg
    {
      Book(active, failed, reg.held, reg.calls)
    }

    /** Agreement with the registrar. */
    ghost predicate Valid()
      reads this, reg
    {
      Agrees(View(), RegistrationOf)
    }

    method NoteFailure(key: Key, text: string)
      modifies this`failed
      ensures failed == old(failed)[key := text]
    {
      failed := failed[key := text];
    }

    method Apply(fn: Function)
      modifies this`active, this`failed, reg
      ensures View() == ApplyFunction(old(View()), fn, reg.verdicts)
    {
      var key, want := fn.arn, RegistrationOf(fn);
      if key in active {
        if active[key] == want {
          failed := failed - {key};
          return;
        }
        reg.Deregister(key);
        active := active - {key};
      }
      var err := reg.Register(key, fn);
      if err.Some? {
        NoteFailure(key, RegisterNote(err.value));
        return;
      }
      failed := failed - {key};
      active := active[key := want];
    }

    method RemoveMissing(seen: set<Key>) returns (ghost order: seq<Key>)
      modifies this`active, this`failed, reg
      ensures ListsUnseen(old(View()), seen, order)
      ensures View() == Sweep(old(View()), seen, order)
    {
      order := [];
      var left := active.Keys;
      while left != {}
        invariant left <= old(active).Keys && failed == old(failed)
        invariant forall k :: k in order <==> k in old(active) && k !in seen && k !in left
        invariant forall i, j :: 0 <= i < j < |order| ==> order[i] != order[j]
        invariant View() == DropAll(old(View()), order)
        decreases left
      {
        var key :| key in left;
        left := left - {key};
        if key !in seen {
          assert (order + [key])[..|order|] == order;
          order := order + [key];
          reg.Deregister(key);
          active := active - {key};
        }
      }
      ghost var dropped := View();
      var rest := failed.Keys;
      while rest != {}
        invariant rest <= old(failed).Keys
        invariant View() == dropped.(failed := failed)
        invariant forall k :: k in failed <==> k in old(failed) && (k in seen || k in rest)
        invariant forall k :: k in failed ==> failed[k] == old(failed)[k]
        decreases rest
      {
        var key :| key in rest;
        rest := rest - {key};
        if key !in seen {
          failed := failed - {key};
        }
      }
      assert failed == ForgetUnseen(dropped, seen).failed;
    }

    /** The loop over the listed mappings. */
    method ApplyMappings(ms: seq<Mapping>) returns (seen: set<Key>)
      requires Valid()
      modifies this`active, this`failed, reg
      ensures Valid() && View() == ApplyAll(old(View()), ms, reg.verdicts) && seen == Seen(ms)
    {
      seen := {};
      for i := 0 to |ms|
        invariant Valid() && View() == ApplyAll(old(View()), ms[..i], reg.verdicts)
        invariant seen == Seen(ms[..i])
      {
        assert ms[..i + 1][..i] == ms[..i];
        MappingAgrees(View(), ms[i], reg.verdicts);
        SeenMore(ms[..i], ms[i]);
        assert ms[..i + 1] == ms[..i] + [ms[i]];
        var arn := ArnOf(ms[i]);
        if arn == "" {
          continue;
        }
        seen := seen + {arn};
        var parsed := ParseFunction(arn, ms[i].tags);
        if parsed.Rejected? {
          NoteFailure(arn, InvalidNote(parsed.text));
          continue;
        }
        Apply(parsed.fn);
      }
      assert ms[..|ms|] == ms;
    }

    /** One cycle. If the account cannot be resolved or the list is incomplete, the registrar is
        not called and nothing is recorded. */
    method Cycle(a: Answers, resolves: bool) returns (ok: bool, ghost order: seq<Key>)
      requires Valid()
      modifies this, reg
      ensures Valid()
      ensures accountResolved <==> old(accountResolved) || (resolves && a.account)
      ensures ok <==> !(resolves && !old(accountResolved) && !a.account) && AllFrom(a.tagged, 0).Some?
      ensures !ok ==> View() == old(View())
      ensures ok ==>
        var ms := AllFrom(a.tagged, 0).value;
        var bk := ApplyAll(old(View()), ms, reg.verdicts);
        ListsUnseen(bk, Seen(ms), order) && View() == Sweep(bk, Seen(ms), order)
    {
      ok, order := false, [];
      if !accountResolved && resolves {
        if !a.account {
          return;
        }
        accountResolved := true;
      }
      var all := ListTagged(a.tagged);
      if all.None? {
        return;
      }
      var seen := ApplyMappings(all.value);
      ghost var swept := View();
      order := RemoveMissing(seen);
      SweepAgrees(swept, seen, order, RegistrationOf);
      ok := true;
    }
  }

  lemma SeenMore(ms: seq<Mapping>, m: Mapping)
    ensures Seen(ms + [m]) == Seen(ms) + (if ArnOf(m) == "" then {} else {ArnOf(m)})
  {
    var all := ms + [m];
    forall k | k in Seen(ms)
      ensures k in Seen(all)
    {
      var i :| 0 <= i < |ms| && ArnOf(ms[i]) != "" && ArnOf(ms[i]) == k;
      assert all[i] == ms[i];
    }
    assert all[|ms|] == m;
  }

  // ------------------------------------------------------------------ convergence

  /** The last validly tagged mapping of k, as a function. */
  function LastValid(ms: seq<Mapping>, k: Key): Option<Function> {
    if ms == [] then None
    else
      var m := ms[|ms| - 1];
      if k != "" && ArnOf(m) == k && Parse(k, m.tags).Valid? then Some(Parse(k, m.tags).fn)
      else LastValid(ms[..|ms| - 1], k)
  }

  /** The last mapping of k. */
  function LastMapping(ms: seq<Mapping>, k: Key): Option<Mapping> {
    if ms == [] then None
    else if k != "" && ArnOf(ms[|ms| - 1]) == k then Some(ms[|ms| - 1])
    else LastMapping(ms[..|ms| - 1], k)
  }

  ghost predicate SameActive(bk: LambdaBook, bk': LambdaBook, k: Key) {
    (k in bk'.active <==> k in bk.active) && (k in bk.active ==> bk'.active[k] == bk.active[k])
  }

  /** A function that is active carries no failure; unless its tags, last time, were invalid. */
  ghost predicate FailureCurrent(bk: LambdaBook, m: Option<Mapping>, k: Key) {
    m.Some? ==>
      if Parse(k, m.value.tags).Valid? then k in bk.active ==> k !in bk.failed else k in bk.failed
  }

  lemma FunctionSettles(bk: LambdaBook, from: nat, fn: Function, v: Verdicts)
    requires Agrees(bk, RegistrationOf) && from <= |bk.calls| && Unrefused(bk, from, fn.arn, v)
    ensures
      var bk' := ApplyFunction(bk, fn, v);
      && Settles(bk', from, fn.arn, RegistrationOf(fn), fn, v) && |bk.calls| <= |bk'.calls|
      && (fn.arn in bk'.active ==> fn.arn !in bk'.failed)
  {
    OfferSettlesSince(bk, from, fn.arn, RegistrationOf(fn), fn, v, RegisterNote, RegistrationOf);
    OfferOutcome(bk, fn.arn, RegistrationOf(fn), fn, v, RegisterNote, RegistrationOf);
  }

  lemma OtherFunctionKeeps(bk: LambdaBook, from: nat, fn: Function, v: Verdicts, k: Key)
    requires k != fn.arn && from <= |bk.calls|
    ensures
      var bk' := ApplyFunction(bk, fn, v);
      && SameAt(bk, bk', k) && |bk.calls| <= |bk'.calls|
      && (LastRefused(bk'.calls, from, k, v) <==> LastRefused(bk.calls, from, k, v))
      && (forall h :: Refuses(bk.calls, from, k, h, v) ==> Refuses(bk'.calls, from, k, h, v))
  {
    OtherOfferKeeps(bk, from, fn.arn, RegistrationOf(fn), fn, v, RegisterNote, k);
    OfferCalls(bk, fn.arn, RegistrationOf(fn), fn, v, RegisterNote);
  }

  /** What a pass has made of k: as last validly tagged, unless the registrar refused just that; or,
      if it was never validly tagged, registered as before. */
  ghost predicate Passed(bk: LambdaBook, bk': LambdaBook, ms: seq<Mapping>, v: Verdicts, k: Key) {
    && |bk.calls| <= |bk'.calls| && FailureCurrent(bk', LastMapping(ms, k), k)
    && match LastValid(ms, k)
       case Some(fn) => Settles(bk', |bk.calls|, k, RegistrationOf(fn), fn, v)
       case None => SameActive(bk, bk', k) && !LastRefused(bk'.calls, |bk.calls|, k, v)
  }

  /** The last mapping is another function's, or has no ARN. */
  lemma PassedOther(bk: LambdaBook, mid: LambdaBook, bk': LambdaBook, ms: seq<Mapping>, v: Verdicts, k: Key)
    requires ms != [] && Passed(bk, mid, ms[..|ms| - 1], v, k) && (ArnOf(ms[|ms| - 1]) != k || k == "")
    requires SameAt(mid, bk', k) && |mid.calls| <= |bk'.calls|
    requires LastRefused(bk'.calls, |bk.calls|, k, v) <==> LastRefused(mid.calls, |bk.calls|, k, v)
    requires forall h :: Refuses(mid.calls, |bk.calls|, k, h, v) ==> Refuses(bk'.calls, |bk.calls|, k, h, v)
    ensures Passed(bk, bk', ms, v, k)
  {
  }

  lemma PassedRejected(bk: LambdaBook, mid: LambdaBook, ms: seq<Mapping>, v: Verdicts, k: Key, note: string)
    requires ms != [] && Passed(bk, mid, ms[..|ms| - 1], v, k)
    requires k != "" && ArnOf(ms[|ms| - 1]) == k && Parse(k, ms[|ms| - 1].tags).Rejected?
    ensures Passed(bk, mid.(failed := mid.failed[k := note]), ms, v, k)
  {
  }

  lemma PassedValid(bk: LambdaBook, mid: LambdaBook, ms: seq<Mapping>, v: Verdicts, k: Key, fn: Function)
    requires ms != [] && Passed(bk, mid, ms[..|ms| - 1], v, k) && Agrees(mid, RegistrationOf)
    requires k != "" && ArnOf(ms[|ms| - 1]) == k && Parse(k, ms[|ms| - 1].tags) == Valid(fn) && fn.arn == k
    ensures Passed(bk, ApplyFunction(mid, fn, v), ms, v, k)
  {
    FunctionSettles(mid, |bk.calls|, fn, v);
  }

  lemma ParsedArn(arn: string, tags: seq<Tag>)
    ensures Parse(arn, tags).Valid? ==> Parse(arn, tags).fn.arn == arn
  {
  }

  lemma {:induction false} PassSettles(bk: LambdaBook, ms: seq<Mapping>, v: Verdicts, k: Key)
    requires Agrees(bk, RegistrationOf)
    ensures Passed(bk, ApplyAll(bk, ms, v), ms, v, k)
  {
    if ms != [] {
      var last := |ms| - 1;
      PassSettles(bk, ms[..last], v, k);
      PassAgrees(bk, ms[..last], v);
      PassStep(bk, ApplyAll(bk, ms[..last], v), ms, v, k);
    }
  }

  lemma PassStep(bk: LambdaBook, mid: LambdaBook, ms: seq<Mapping>, v: Verdicts, k: Key)
    requires ms != [] && Passed(bk, mid, ms[..|ms| - 1], v, k) && Agrees(mid, RegistrationOf)
    ensures Passed(bk, ApplyMapping(mid, ms[|ms| - 1], v), ms, v, k)
  {
    var m := ms[|ms| - 1];
    var arn := ArnOf(m);
    var bk' := ApplyMapping(mid, m, v);
    ParsedArn(arn, m.tags);
    match Parse(arn, m.tags)
    case Rejected(text) =>
      if arn == k && k != "" {
        PassedRejected(bk, mid, ms, v, k, InvalidNote(text));
      } else {
        PassedOther(bk, mid, bk', ms, v, k);
      }
    case Valid(fn) =>
      if arn == k && k != "" {
        PassedValid(bk, mid, ms, v, k, fn);
      } else {
        if arn != "" {
          OtherFunctionKeeps(mid, |bk.calls|, fn, v, k);
        }
        PassedOther(bk, mid, bk', ms, v, k);
      }
  }

  lemma {:induction false} PassAgrees(bk: LambdaBook, ms: seq<Mapping>, v: Verdicts)
    requires Agrees(bk, RegistrationOf)
    ensures Agrees(ApplyAll(bk, ms, v), RegistrationOf)
  {
    if ms != [] {
      var last := |ms| - 1;
      PassAgrees(bk, ms[..last], v);
      MappingAgrees(ApplyAll(bk, ms[..last], v), ms[last], v);
    }
  }

  lemma {:induction false} ValidIsSeen(ms: seq<Mapping>, k: Key)
    ensures LastValid(ms, k).Some? ==> k in Seen(ms)
  {
    if ms != [] {
      var last := |ms| - 1;
      ValidIsSeen(ms[..last], k);
      assert ms == ms[..last] + [ms[last]];
      SeenMore(ms[..last], ms[last]);
    }
  }

  /** After a successful cycle: a validly tagged function is active exactly as last tagged, unless the
      registrar refused just that, and then it is failing and not active; one that is tagged but never
      validly keeps its previous registration; one that is not listed is gone. */
  lemma CycleConverges(bk: LambdaBook, ms: seq<Mapping>, order: seq<Key>, v: Verdicts, k: Key)
    requires Agrees(bk, RegistrationOf) && ListsUnseen(ApplyAll(bk, ms, v), Seen(ms), order)
    ensures
      var bk' := Sweep(ApplyAll(bk, ms, v), Seen(ms), order);
      if k !in Seen(ms) then k !in bk'.active && k !in bk'.failed
      else FailureCurrent(bk', LastMapping(ms, k), k) &&
           match LastValid(ms, k)
           case Some(fn) => Settles(bk', |bk.calls|, k, RegistrationOf(fn), fn, v)
           case None => SameActive(bk, bk', k)
  {
    var applied := ApplyAll(bk, ms, v);
    PassSettles(bk, ms, v, k);
    SweepIs(applied, Seen(ms), order);
    if k in Seen(ms) && LastValid(ms, k).Some? {
      var fn := LastValid(ms, k).value;
      SweepSettles(applied, |bk.calls|, Seen(ms), order, k, RegistrationOf(fn), fn, v);
    }
  }

  /** Mapping i is the last acceptable one of k. */
  ghost predicate LastAcceptable(ms: seq<Mapping>, i: nat, k: Key) {
    && k != "" && i < |ms| && ms[i].arn == Some(k) && Acceptable(ms[i].tags)
    && (forall j :: i < j < |ms| && ms[j].arn == Some(k) ==> !Acceptable(ms[j].tags))
  }

  lemma {:induction false} LastValidIs(ms: seq<Mapping>, i: nat, k: Key, svc: string, q: string, caps: string)
    requires LastAcceptable(ms, i, k)
    requires TagIs(ms[i].tags, "tsserve.service", svc) && TagIs(ms[i].tags, "tsserve.qualifier", q)
    requires TagIs(ms[i].tags, "tsserve.caps", caps)
    ensures LastValid(ms, k) == Some(Function(svc, L.ParseCaps(caps), k, q))
  {
    var last := |ms| - 1;
    if i < last {
      if ArnOf(ms[last]) == k {
        UnacceptableRejected(k, ms[last].tags);
      }
      LastValidIs(ms[..last], i, k, svc, q, caps);
    } else {
      ParsedFromTags(k, ms[i].tags, svc, q, caps);
    }
  }

  lemma UnacceptableRejected(arn: string, tags: seq<Tag>)
    requires !Acceptable(tags)
    ensures Parse(arn, tags).Rejected?
  {
    var values := TagValues(tags);
    TagValueIs(tags, "tsserve.service");
    TagValueIs(tags, "tsserve.qualifier");
    TagValueIs(tags, "tsserve.caps");
    ParsedFromTags(arn, tags, L.Get(values, "tsserve.service"), L.Get(values, "tsserve.qualifier"), L.Get(values, "tsserve.caps"));
  }

  /** Convergence by the tags: if mapping i is the last acceptable one of k, then after the cycle k is
      registered under the service, the qualifier and the caps that its tags give, unless the
      registrar refused just that. */
  lemma CycleConvergesOnTags(bk: LambdaBook, ms: seq<Mapping>, order: seq<Key>, v: Verdicts, k: Key,
                             i: nat, svc: string, q: string, caps: string)
    requires Agrees(bk, RegistrationOf) && ListsUnseen(ApplyAll(bk, ms, v), Seen(ms), order)
    requires LastAcceptable(ms, i, k)
    requires TagIs(ms[i].tags, "tsserve.service", svc) && TagIs(ms[i].tags, "tsserve.qualifier", q)
    requires TagIs(ms[i].tags, "tsserve.caps", caps)
    ensures
      var bk' := Sweep(ApplyAll(bk, ms, v), Seen(ms), order);
      Settles(bk', |bk.calls|, k, Registration(svc, L.CapsText(L.ParseCaps(caps)), q),
              Function(svc, L.ParseCaps(caps), k, q), v)
  {
    LastValidIs(ms, i, k, svc, q, caps);
    ValidIsSeen(ms, k);
    CycleConverges(bk, ms, order, v, k);
  }

  // ------------------------------------------------------------------ whole histories

  /** Agreement with the registrar, every function held under its own ARN, by the calls made. */
  ghost predicate Sound(bk: LambdaBook, v: Verdicts) {
    Agrees(bk, RegistrationOf) && Traced(bk, v) && Keyed(bk)
  }

  ghost predicate Keyed(bk: LambdaBook) {
    forall k :: k in bk.held ==> bk.held[k].arn == k
  }

  lemma FunctionKeyed(bk: LambdaBook, fn: Function, v: Verdicts)
    requires Keyed(bk)
    ensures Keyed(ApplyFunction(bk, fn, v))
  {
    var bk' := ApplyFunction(bk, fn, v);
    if !(fn.arn in bk.active && bk.active[fn.arn] == RegistrationOf(fn)) {
      forall k | k in bk'.held
        ensures bk'.held[k].arn == k
      {
        OfferHolds(bk, fn.arn, RegistrationOf(fn), fn, v, RegisterNote, k);
      }
    }
  }

  lemma FunctionTraced(bk: LambdaBook, fn: Function, v: Verdicts)
    requires Traced(bk, v)
    ensures Traced(ApplyFunction(bk, fn, v), v)
  {
    if !(fn.arn in bk.active && bk.active[fn.arn] == RegistrationOf(fn)) {
      OfferTraced(bk, fn.arn, RegistrationOf(fn), fn, v, RegisterNote);
    }
  }

  lemma MappingSound(bk: LambdaBook, m: Mapping, v: Verdicts)
    requires Sound(bk, v)
    ensures Sound(ApplyMapping(bk, m, v), v)
  {
    MappingAgrees(bk, m, v);
    if ArnOf(m) != "" && Parse(ArnOf(m), m.tags).Valid? {
      var fn := Parse(ArnOf(m), m.tags).fn;
      FunctionKeyed(bk, fn, v);
      FunctionTraced(bk, fn, v);
    }
  }

  lemma {:induction false} PassSound(bk: LambdaBook, ms: seq<Mapping>, v: Verdicts)
    requires Sound(bk, v)
    ensures Sound(ApplyAll(bk, ms, v), v)
  {
    if ms != [] {
      var last := |ms| - 1;
      PassSound(bk, ms[..last], v);
      MappingSound(ApplyAll(bk, ms[..last], v), ms[last], v);
    }
  }

  /** A cycle as Watcher.Cycle is proved to perform it; the list is None when the cycle fails. */
  datatype Round = Round(listed: Option<seq<Mapping>>, order: seq<Key>)

  ghost predicate Cycles(bk: LambdaBook, r: Round, v: Verdicts, bk': LambdaBook) {
    match r.listed
    case None => bk' == bk
    case Some(ms) =>
      var applied := ApplyAll(bk, ms, v);
      ListsUnseen(applied, Seen(ms), r.order) && bk' == Sweep(applied, Seen(ms), r.order)
  }

  lemma CycleSound(bk: LambdaBook, r: Round, v: Verdicts, bk': LambdaBook)
    requires Sound(bk, v) && Cycles(bk, r, v, bk')
    ensures Sound(bk', v)
  {
    if r.listed.Some? {
      var ms := r.listed.value;
      PassSound(bk, ms, v);
      SweepAgrees(ApplyAll(bk, ms, v), Seen(ms), r.order, RegistrationOf);
      SweepTraced(ApplyAll(bk, ms, v), Seen(ms), r.order, v);
      DropAllIs(ApplyAll(bk, ms, v), r.order);
    }
  }

  /** Any sequence of cycles, failed ones included, from a new watcher on. */
  ghost predicate History(bks: seq<LambdaBook>, rounds: seq<Round>, v: Verdicts) {
    && |bks| == |rounds| + 1 && bks[0] == Book(map[], map[], map[], [])
    && (forall j :: 0 <= j < |rounds| ==> Cycles(bks[j], rounds[j], v, bks[j + 1]))
  }

  /** After any such sequence the registrar holds exactly the active functions, each registered as
      recorded, by the calls made to it. */
  lemma {:induction false} EveryHistoryAgrees(bks: seq<LambdaBook>, rounds: seq<Round>, v: Verdicts, i: nat)
    requires History(bks, rounds, v) && i < |bks|
    ensures Sound(bks[i], v)
  {
    if i > 0 {
      EveryHistoryAgrees(bks, rounds, v, i - 1);
      CycleSound(bks[i - 1], rounds[i - 1], v, bks[i]);
    }
  }
}
