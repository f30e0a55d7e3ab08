/**
 * The compare-and-swap protocol of `R2LiveImageStore.ts`: any number of owners commit and load one stored object.
 * Every write carries an ETag condition; requests may be refused, applied, applied after the owner gave up, or never
 * arrive, and replies may be lost. A run is a sequence of steps between the yield points of the source.
 */
module R2Store {
  import opened Basics

  const MAX_SAFE_INTEGER: nat := 9007199254740991

  type ETag = string

  /** What an owner last read or wrote, and whether a lost reply has frozen it. */
  datatype Ownership = Ownership(generation: Option<nat>, etag: Option<ETag>, available: bool)

  const UNOWNED := Ownership(None, None, true)

  /**
   * One version of the object. `generation` is absent when it is missing or not a decimal number, `sound` says that
   * the stored digest is present and is the digest of the bytes, `author` is the operation that wrote it.
   */
  datatype Version = Version(image: bytes, etag: ETag, generation: Option<nat>, sound: bool, author: Option<nat>)

  /** The version a commit means to replace. */
  datatype Held = Held(generation: nat, etag: ETag)

  datatype LoadError = Storage | OwnershipTaken | CorruptStore | TooLarge

  datatype Outcome = Committed | Unknown | Rejected | Loaded(version: nat) | LoadFailed(error: LoadError)

  datatype Phase =
    | Hashing                                        // commit: the digest is being computed
    | Writing                                        // commit: a conditional write was sent
    | Reading(again: bool)                           // load: a read was sent
    | ReadDone(again: bool, found: Option<nat>)      // load: the read was answered with a version
    | Creating                                       // load: a write of the first version was sent
    | Finished(outcome: Outcome)

  datatype Request = NotSent | Sent | Applied(version: nat) | Refused

  /** An operation of an owner: `held` is the condition of a commit, absent for a load. */
  datatype Op = Op(owner: nat, image: bytes, held: Option<Held>, phase: Phase, request: Request, floor: nat)

  /** `acked` is one more than the latest version acknowledged to any owner. */
  datatype World = World(history: seq<Version>, owners: map<nat, Ownership>, ops: seq<Op>, acked: nat)

  // ---------------------------------------------------------------- what an owner does

  /** The checks of `validate`. */
  predicate Valid(record: Version, maxImage: nat) {
    && record.etag != "" && |record.image| <= maxImage
    && record.generation.Some? && record.generation.value <= MAX_SAFE_INTEGER && record.sound
  }

  function Adopt(o: Ownership, generation: nat, etag: ETag): Ownership {
    o.(generation := Some(generation), etag := Some(etag))
  }

  function Freeze(o: Ownership): Ownership {
    o.(available := false)
  }

  /** How a commit starts: answered at once, or with the version it will replace. */
  datatype CommitStart = AnswerNow(outcome: Outcome) | Proceed(held: Held)

  function StartCommit(o: Ownership, image: bytes, maxImage: nat): CommitStart {
    if !o.available || o.generation.None? || o.etag.None? then AnswerNow(Unknown)
    else if |image| > maxImage || o.generation.value == MAX_SAFE_INTEGER then AnswerNow(Rejected)
    else Proceed(Held(o.generation.value, o.etag.value))
  }

  function StartLoad(o: Ownership): Option<LoadError> {
    if !o.available then Some(Storage) else if o.generation.Some? then Some(OwnershipTaken) else None
  }

  /** The owner's mutable state, one method for each stretch of code between two yields. */
  class ImageOwner {
    var generation: Option<nat>
    var etag: Option<ETag>
    var available: bool
    const maxImage: nat

    constructor (maxImage: nat)
      ensures State() == UNOWNED && this.maxImage == maxImage
    {
      this.maxImage := maxImage;
      generation, etag, available := None, None, true;
    }

    function State(): Ownership reads this {
      Ownership(generation, etag, available)
    }

    /** Check a record and adopt its generation and ETag. */
    method Validate(record: Version) returns (r: Result<bytes, LoadError>)
      modifies this
      ensures r.Ok? <==>
                && record.etag != "" && |record.image| <= maxImage && record.sound
                && record.generation.Some? && record.generation.value <= 9007199254740991
      ensures r.Ok? ==> r.value == record.image && State() == Ownership(record.generation, Some(record.etag), old(available))
      ensures r.Err? ==> r.error == CorruptStore && State() == old(State())
      ensures r.Ok? == Valid(record, maxImage)
      ensures State() == if Valid(record, maxImage) then Adopt(old(State()), record.generation.value, record.etag)
                         else old(State())
    {
      if record.etag == "" || |record.image| > maxImage || record.generation.None? { return Err(CorruptStore); }
      if record.generation.value > MAX_SAFE_INTEGER { return Err(CorruptStore); }
      if !record.sound { return Err(CorruptStore); }
      generation, etag := record.generation, Some(record.etag);
      return Ok(record.image);
    }

    method BeginCommit(image: bytes) returns (start: CommitStart)
      ensures start == StartCommit(State(), image, maxImage)
      ensures start.Proceed? <==>
                && available && generation.Some? && etag.Some? && |image| <= maxImage && generation.value != MAX_SAFE_INTEGER
      ensures start.Proceed? ==> start.held == Held(generation.value, etag.value)
      ensures start == AnswerNow(Unknown) <==> !available || generation.None? || etag.None?
      ensures start.AnswerNow? ==> start.outcome == Unknown || start.outcome == Rejected
    {
      if !available || generation.None? || etag.None? { return AnswerNow(Unknown); }
      if |image| > maxImage || generation.value == MAX_SAFE_INTEGER { return AnswerNow(Rejected); }
      return Proceed(Held(generation.value, etag.value));
    }

    /**
     * The write was answered: `written` holds the new ETag, or nothing when the write was refused or its reply lost.
     * A freeze that another commit set meanwhile is kept.
     */
    method FinishCommit(held: Held, written: Option<ETag>) returns (outcome: Outcome)
      modifies this
      ensures outcome == if written.Some? && written.value != "" then Committed else Unknown
      ensures State() == if outcome == Committed then Adopt(old(State()), held.generation + 1, written.value)
                         else Freeze(old(State()))
      ensures !old(available) ==> !available
    {
      if written.None? || written.value == "" {
        available := false;
        return Unknown;
      }
      generation, etag := Some(held.generation + 1), written;
      return Committed;
    }

    method BeginLoad() returns (refused: Option<LoadError>)
      ensures refused == StartLoad(State())
      ensures refused.None? <==> available && generation.None?
    {
      if !available { return Some(Storage); }
      if generation.Some? { return Some(OwnershipTaken); }
      return None;
    }
  }

  // ---------------------------------------------------------------- steps

  datatype Step =
    | BeginCommit(owner: nat, image: bytes)
    | Hashed(op: nat, ok: bool)
    | BeginLoad(owner: nat, initial: bytes)
    | ReadStore(op: nat)
    | TakeRead(op: nat)
    | Arrive(op: nat, etag: ETag)        // the store handles a write; `etag` is the ETag it gives an applied one
    | TakeReply(op: nat, blank: bool)    // the owner takes the store's answer, whose ETag may be blank
    | GiveUp(op: nat)                    // the owner sees a transport failure; the request may still arrive

  function OwnerOf(w: World, owner: nat): Ownership {
    if owner in w.owners then w.owners[owner] else UNOWNED
  }

  function SetOp(w: World, i: nat, op: Op): World
    requires i < |w.ops|
  {
    w.(ops := w.ops[i := op])
  }

  function SetOwner(w: World, owner: nat, o: Ownership): World {
    w.(owners := w.owners[owner := o])
  }

  predicate FreshTag(w: World, etag: ETag) {
    etag != "" && forall k :: 0 <= k < |w.history| ==> w.history[k].etag != etag
  }

  /** Whether the store would apply the write of `op` now. */
  predicate ConditionHolds(w: World, op: Op) {
    match op.held
    case None => w.history == []
    case Some(held) => w.history != [] && w.history[|w.history| - 1].etag == held.etag
  }

  function Written(i: nat, op: Op, etag: ETag): Version {
    Version(op.image, etag, Some(if op.held.Some? then op.held.value.generation + 1 else 0), true, Some(i))
  }

  /** The next world, or nothing when the step is not possible. */
  function Next(w: World, maxImage: nat, step: Step): Option<World> {
    match step
    case BeginCommit(owner, image) =>
      (match StartCommit(OwnerOf(w, owner), image, maxImage)
       case AnswerNow(outcome) =>
         Some(w.(ops := w.ops + [Op(owner, image, None, Finished(outcome), NotSent, w.acked)]))
       case Proceed(held) => Some(w.(ops := w.ops + [Op(owner, image, Some(held), Hashing, NotSent, w.acked)])))
    case Hashed(i, ok) =>
      if i >= |w.ops| || w.ops[i].phase != Hashing then None
      else if ok then Some(SetOp(w, i, w.ops[i].(phase := Writing, request := Sent)))
      else Some(SetOp(w, i, w.ops[i].(phase := Finished(Rejected))))
    case BeginLoad(owner, initial) =>
      (match StartLoad(OwnerOf(w, owner))
       case Some(e) => Some(w.(ops := w.ops + [Op(owner, initial, None, Finished(LoadFailed(e)), NotSent, w.acked)]))
       case None => Some(w.(ops := w.ops + [Op(owner, initial, None, Reading(false), NotSent, w.acked)])))
    case ReadStore(i) =>
      if i >= |w.ops| || !w.ops[i].phase.Reading? then None
      else
        var found := if w.history == [] then Option<nat>.None else Some(|w.history| - 1);
        Some(SetOp(w, i, w.ops[i].(phase := ReadDone(w.ops[i].phase.again, found))))
    case TakeRead(i) =>
      if i >= |w.ops| || !w.ops[i].phase.ReadDone? then None else TakeReadOf(w, maxImage, i)
    case Arrive(i, etag) =>
      if i >= |w.ops| || w.ops[i].request != Sent || !FreshTag(w, etag) then None
      else if !ConditionHolds(w, w.ops[i]) then Some(SetOp(w, i, w.ops[i].(request := Refused)))
      else Some(SetOp(w, i, w.ops[i].(request := Applied(|w.history|)))
                .(history := w.history + [Written(i, w.ops[i], etag)]))
    case TakeReply(i, blank) =>
      if i >= |w.ops| || !(w.ops[i].request.Applied? || w.ops[i].request.Refused?) then None
      else TakeReplyOf(w, i, blank)
    case GiveUp(i) =>
      if i >= |w.ops| || w.ops[i].phase.Hashing? || w.ops[i].phase.Finished? then None
      else if w.ops[i].phase.Writing? then
        Some(SetOp(SetOwner(w, w.ops[i].owner, Freeze(OwnerOf(w, w.ops[i].owner))), i, w.ops[i].(phase := Finished(Unknown))))
      else Some(SetOp(w, i, w.ops[i].(phase := Finished(LoadFailed(Storage)))))
  }

  /** A load takes the version it read: adopt it, refuse it, or create the first one. */
  function TakeReadOf(w: World, maxImage: nat, i: nat): Option<World>
    requires i < |w.ops| && w.ops[i].phase.ReadDone?
  {
    var op := w.ops[i];
    match op.phase.found
    case Some(k) =>
      if k >= |w.history| then None
      else if !Valid(w.history[k], maxImage) then Some(SetOp(w, i, op.(phase := Finished(LoadFailed(CorruptStore)))))
      else
        var record := w.history[k];
        Some(SetOp(SetOwner(w, op.owner, Adopt(OwnerOf(w, op.owner), record.generation.value, record.etag)), i,
                   op.(phase := Finished(Loaded(k)))))
    case None =>
      if op.phase.again then Some(SetOp(w, i, op.(phase := Finished(LoadFailed(Storage)))))
      else if |op.image| > maxImage then Some(SetOp(w, i, op.(phase := Finished(LoadFailed(TooLarge)))))
      else Some(SetOp(w, i, op.(phase := Creating, request := Sent)))
  }

  function TakeReplyOf(w: World, i: nat, blank: bool): Option<World>
    requires i < |w.ops| && (w.ops[i].request.Applied? || w.ops[i].request.Refused?)
  {
    var op := w.ops[i];
    var owner := OwnerOf(w, op.owner);
    if op.phase == Writing then
      if op.request.Refused? || blank then
        Some(SetOp(SetOwner(w, op.owner, Freeze(owner)), i, op.(phase := Finished(Unknown))))
      else if op.request.version >= |w.history| || op.held.None? then None
      else
        var k := op.request.version;
        Some(SetOp(SetOwner(w, op.owner, Adopt(owner, op.held.value.generation + 1, w.history[k].etag)), i,
                   op.(phase := Finished(Committed))).(acked := Max(w.acked, k + 1)))
    else if op.phase == Creating then
      if op.request.Refused? then Some(SetOp(w, i, op.(phase := Reading(true))))
      else if blank then Some(SetOp(w, i, op.(phase := Finished(LoadFailed(Storage)))))
      else if op.request.version >= |w.history| then None
      else
        var k := op.request.version;
        Some(SetOp(SetOwner(w, op.owner, Adopt(owner, 0, w.history[k].etag)), i,
                   op.(phase := Finished(Loaded(k)))).(acked := Max(w.acked, k + 1)))
    else None
  }

  /** Runs start with no owners and an object that is absent or was stored earlier by anyone. */
  predicate Initial(w: World) {
    && w.owners == map[] && w.ops == [] && w.acked == 0
    && |w.history| <= 1 && (forall k :: 0 <= k < |w.history| ==> w.history[k].author == None)
  }

  /** The worlds a run passes through; impossible steps change nothing. */
  function Execute(w: World, maxImage: nat, run: seq<Step>): World {
    if run == [] then w
    else
      var before := Execute(w, maxImage, run[..|run| - 1]);
      match Next(before, maxImage, run[|run| - 1])
      case None => before
      case Some(after) => after
  }

  // ---------------------------------------------------------------- the invariant

  /** `held` is a version of the chain. */
  ghost predicate Known(w: World, generation: nat, etag: ETag) {
    exists k :: 0 <= k < |w.history| && w.history[k].etag == etag && w.history[k].generation == Some(generation)
  }

  ghost predicate DistinctTags(w: World) {
    forall j, k :: 0 <= j < k < |w.history| ==> w.history[j].etag != w.history[k].etag
  }

  /** Version `k` carries the generation after the version before it. */
  ghost predicate Linked(w: World, k: nat)
    requires 1 <= k < |w.history|
  {
    && w.history[k - 1].generation.Some?
    && w.history[k].generation == Some(w.history[k - 1].generation.value + 1)
    && w.history[k].author.Some?
  }

  /** The author of version `k` knows that its write was applied. */
  ghost predicate AuthorOk(w: World, k: nat)
    requires k < |w.history|
  {
    w.history[k].author.Some? ==>
      && w.history[k].author.value < |w.ops|
      && w.ops[w.history[k].author.value].request == Applied(k)
      && w.history[k].image == w.ops[w.history[k].author.value].image
  }

  ghost predicate ChainOk(w: World) {
    && DistinctTags(w)
    && (forall k: nat :: 1 <= k < |w.history| ==> Linked(w, k))
    && (forall k: nat :: 0 <= k < |w.history| ==> AuthorOk(w, k))
  }

  ghost predicate OwnerOk(w: World, o: Ownership) {
    && (o.generation.Some? <==> o.etag.Some?)
    && (o.generation.Some? ==> Known(w, o.generation.value, o.etag.value))
  }

  ghost predicate AppliedOk(w: World, i: nat)
    requires i < |w.ops|
  {
    var op := w.ops[i];
    op.request.Applied? ==>
      && op.request.version < |w.history| && w.history[op.request.version].author == Some(i)
      && (if op.held.Some? then
            && 1 <= op.request.version
            && w.history[op.request.version - 1].etag == op.held.value.etag
            && w.history[op.request.version - 1].generation == Some(op.held.value.generation)
          else op.request.version == 0 && w.history[0].generation == Some(0))
  }

  ghost predicate OpOk(w: World, i: nat)
    requires i < |w.ops|
  {
    var op := w.ops[i];
    && (op.held.Some? ==> Known(w, op.held.value.generation, op.held.value.etag))
    && (op.phase.Hashing? ==> op.held.Some? && op.request == NotSent)
    && (op.phase.Writing? ==> op.held.Some?)
    && (op.phase.Creating? || op.phase.Reading? || op.phase.ReadDone? ==> op.held.None?)
    && (op.phase.Reading? || op.phase.ReadDone? ==> !op.request.Applied? && !op.request.Sent?)
    && AppliedOk(w, i)
    && (op.phase == Finished(Committed) ==>
          op.held.Some? && op.request.Applied? && op.request.version + 1 <= w.acked)
    && op.floor <= w.acked
    && (op.phase.ReadDone? && op.phase.found.Some? ==>
          op.phase.found.value < |w.history| && op.floor <= op.phase.found.value + 1)
    && (op.phase.ReadDone? && op.phase.found.None? ==> op.floor == 0)
    && (op.phase.Creating? ==> op.floor == 0)
    && (op.phase.Finished? && op.phase.outcome.Loaded? ==>
          op.phase.outcome.version < |w.history| && op.floor <= op.phase.outcome.version + 1)
  }

  ghost predicate Inv(w: World) {
    && ChainOk(w) && w.acked <= |w.history|
    && (forall o :: o in w.owners ==> OwnerOk(w, w.owners[o]))
    && (forall i :: 0 <= i < |w.ops| ==> OpOk(w, i))
  }

  lemma InitialInv(w: World)
    requires Initial(w)
    ensures Inv(w)
  {
  }

  /** The chain stays as it is when applied requests keep their answers and images. */
  lemma ChainKept(w: World, x: World)
    requires ChainOk(w) && x.history == w.history && |w.ops| <= |x.ops|
    requires forall j :: 0 <= j < |w.ops| && w.ops[j].request.Applied? ==>
                           x.ops[j].request == w.ops[j].request && x.ops[j].image == w.ops[j].image
    ensures ChainOk(x)
  {
    forall k: nat | 1 <= k < |x.history| ensures Linked(x, k) { assert Linked(w, k); }
    forall k: nat | 0 <= k < |x.history| ensures AuthorOk(x, k) { assert AuthorOk(w, k); }
  }

  /** Growing history keeps what was known. */
  lemma KnownKept(w: World, x: World, generation: nat, etag: ETag)
    requires Known(w, generation, etag) && w.history <= x.history
    ensures Known(x, generation, etag)
  {
    var k :| 0 <= k < |w.history| && w.history[k].etag == etag && w.history[k].generation == Some(generation);
    assert x.history[k] == w.history[k];
  }

  /** An operation no step touched stays as it was. */
  lemma OpKept(w: World, x: World, i: nat)
    requires i < |w.ops| && i < |x.ops| && OpOk(w, i) && x.ops[i] == w.ops[i]
    requires w.history <= x.history && w.acked <= x.acked
    ensures OpOk(x, i)
  {
    var op := w.ops[i];
    if op.held.Some? { KnownKept(w, x, op.held.value.generation, op.held.value.etag); }
  }

  lemma OwnerKept(w: World, x: World, o: Ownership)
    requires OwnerOk(w, o) && w.history <= x.history
    ensures OwnerOk(x, o)
  {
    if o.generation.Some? { KnownKept(w, x, o.generation.value, o.etag.value); }
  }

  /** Steps that only touch one operation and its owner. */
  lemma LocalStep(w: World, x: World, i: nat)
    requires Inv(w) && i < |w.ops| == |x.ops| && x.history == w.history && w.acked <= x.acked <= |x.history|
    requires forall j :: 0 <= j < |w.ops| && j != i ==> x.ops[j] == w.ops[j]
    requires w.ops[i].request.Applied? ==> x.ops[i].request == w.ops[i].request && x.ops[i].image == w.ops[i].image
    requires OpOk(x, i)
    requires forall o :: o in x.owners ==> (o in w.owners && x.owners[o] == w.owners[o]) || OwnerOk(x, x.owners[o])
    ensures Inv(x)
  {
    hide OpOk, ChainOk, OwnerOk;
    forall j | 0 <= j < |x.ops| && j != i ensures OpOk(x, j) { OpKept(w, x, j); }
    forall o | o in x.owners ensures OwnerOk(x, x.owners[o]) {
      if o in w.owners && x.owners[o] == w.owners[o] { OwnerKept(w, x, x.owners[o]); }
    }
    ChainKept(w, x);
  }

  lemma AddOp(w: World, x: World)
    requires Inv(w) && x.history == w.history && x.acked == w.acked && x.owners == w.owners
    requires |x.ops| == |w.ops| + 1 && x.ops[..|w.ops|] == w.ops && OpOk(x, |w.ops|)
    ensures Inv(x)
  {
    hide OpOk, ChainOk, OwnerOk;
    forall j | 0 <= j < |w.ops| ensures x.ops[j] == w.ops[j] && OpOk(x, j) {
      assert x.ops[..|w.ops|][j] == w.ops[j];
      OpKept(w, x, j);
    }
    forall o | o in x.owners ensures OwnerOk(x, x.owners[o]) { OwnerKept(w, x, x.owners[o]); }
    ChainKept(w, x);
  }

  /** The condition of a commit is met only by the version it holds. */
  lemma HeldIsLast(w: World, i: nat)
    requires Inv(w) && i < |w.ops| && w.ops[i].held.Some? && ConditionHolds(w, w.ops[i])
    ensures w.history[|w.history| - 1].generation == Some(w.ops[i].held.value.generation)
  {
    var held := w.ops[i].held.value;
    assert OpOk(w, i);
    var k :| 0 <= k < |w.history| && w.history[k].etag == held.etag && w.history[k].generation == Some(held.generation);
    assert k == |w.history| - 1;
  }

  /** An applied write extends the chain by one. */
  lemma ChainGrows(w: World, x: World, i: nat, etag: ETag)
    requires ChainOk(w) && i < |w.ops| == |x.ops| && FreshTag(w, etag) && !w.ops[i].request.Applied?
    requires x.history == w.history + [Written(i, w.ops[i], etag)]
    requires x.ops == w.ops[i := w.ops[i].(request := Applied(|w.history|))]
    requires |w.history| > 0 ==> w.ops[i].held.Some?
                                 && w.history[|w.history| - 1].generation == Some(w.ops[i].held.value.generation)
    ensures ChainOk(x)
  {
    forall k: nat | 1 <= k < |x.history| ensures Linked(x, k) { if k < |w.history| { assert Linked(w, k); } }
    forall k: nat | 0 <= k < |x.history| ensures AuthorOk(x, k) { if k < |w.history| { assert AuthorOk(w, k); } }
  }

  lemma ArriveInv(w: World, i: nat, etag: ETag)
    requires Inv(w) && i < |w.ops| && w.ops[i].request == Sent && FreshTag(w, etag) && ConditionHolds(w, w.ops[i])
    ensures Inv(SetOp(w, i, w.ops[i].(request := Applied(|w.history|))).(history := w.history + [Written(i, w.ops[i], etag)]))
  {
    var x := SetOp(w, i, w.ops[i].(request := Applied(|w.history|))).(history := w.history + [Written(i, w.ops[i], etag)]);
    ArrivedOp(w, x, i, etag);
    hide OpOk, ChainOk, OwnerOk;
    if w.ops[i].held.Some? { HeldIsLast(w, i); }
    ChainGrows(w, x, i, etag);
    forall j | 0 <= j < |x.ops| && j != i ensures OpOk(x, j) { OpKept(w, x, j); }
    forall o | o in x.owners ensures OwnerOk(x, x.owners[o]) { OwnerKept(w, x, x.owners[o]); }
  }

  lemma ArrivedOp(w: World, x: World, i: nat, etag: ETag)
    requires Inv(w) && i < |w.ops| == |x.ops| && w.ops[i].request == Sent && ConditionHolds(w, w.ops[i])
    requires x.history == w.history + [Written(i, w.ops[i], etag)] && x.acked == w.acked
    requires x.ops[i] == w.ops[i].(request := Applied(|w.history|))
    ensures OpOk(x, i)
  {
    assert OpOk(w, i);
    if w.ops[i].held.Some? {
      HeldIsLast(w, i);
      KnownKept(w, x, w.ops[i].held.value.generation, w.ops[i].held.value.etag);
    }
  }

  lemma KnownAt(w: World, k: nat)
    requires k < |w.history| && w.history[k].generation.Some?
    ensures Known(w, w.history[k].generation.value, w.history[k].etag)
  {
  }

  lemma OwnerOfOk(w: World, owner: nat)
    requires Inv(w)
    ensures OwnerOk(w, OwnerOf(w, owner))
  {
  }

  /** An operation's step that leaves its request alone. */
  lemma OpStep(w: World, x: World, i: nat)
    requires Inv(w) && i < |w.ops| && i < |x.ops| && x.history == w.history && w.acked <= x.acked
    requires x.ops[i].held == w.ops[i].held && x.ops[i].floor == w.ops[i].floor
    requires x.ops[i].request == w.ops[i].request || !x.ops[i].request.Applied?
    ensures x.ops[i].held.Some? ==> Known(x, x.ops[i].held.value.generation, x.ops[i].held.value.etag)
    ensures AppliedOk(x, i) && x.ops[i].floor <= x.acked && OpOk(w, i)
  {
    assert OpOk(w, i);
    if w.ops[i].held.Some? { KnownKept(w, x, w.ops[i].held.value.generation, w.ops[i].held.value.etag); }
  }

  lemma ReplyInv(w: World, i: nat, blank: bool)
    requires Inv(w) && i < |w.ops| && (w.ops[i].request.Applied? || w.ops[i].request.Refused?)
    ensures TakeReplyOf(w, i, blank).Some? ==> Inv(TakeReplyOf(w, i, blank).value)
  {
    if TakeReplyOf(w, i, blank).Some? {
      var x := TakeReplyOf(w, i, blank).value;
      ReplyStep(w, i, blank, x);
      hide OpOk, ChainOk, OwnerOk, Known;
      LocalStep(w, x, i);
    }
  }

  lemma ReplyStep(w: World, i: nat, blank: bool, x: World)
    requires Inv(w) && i < |w.ops| && (w.ops[i].request.Applied? || w.ops[i].request.Refused?)
    requires TakeReplyOf(w, i, blank) == Some(x)
    ensures OpOk(x, i) && OwnerOk(x, OwnerOf(x, w.ops[i].owner)) && x.acked <= |x.history|
  {
    hide ChainOk, Known;
    OpStep(w, x, i);
    OwnerOfOk(w, w.ops[i].owner);
    OwnerKept(w, x, OwnerOf(w, w.ops[i].owner));
    if w.ops[i].request.Applied? {
      var k := w.ops[i].request.version;
      if 1 <= k { LinkedAt(w, k); }
      KnownAt(x, k);
    }
  }

  lemma LinkedAt(w: World, k: nat)
    requires ChainOk(w) && 1 <= k < |w.history|
    ensures Linked(w, k)
  {
  }

  lemma ReadInv(w: World, maxImage: nat, i: nat)
    requires Inv(w) && i < |w.ops| && w.ops[i].phase.ReadDone? && !w.ops[i].request.Applied?
    ensures TakeReadOf(w, maxImage, i).Some? ==> Inv(TakeReadOf(w, maxImage, i).value)
  {
    if TakeReadOf(w, maxImage, i).Some? {
      var x := TakeReadOf(w, maxImage, i).value;
      OpStep(w, x, i);
      OwnerOfOk(w, w.ops[i].owner);
      OwnerKept(w, x, OwnerOf(w, w.ops[i].owner));
      if w.ops[i].phase.found.Some? && x.history[w.ops[i].phase.found.value].generation.Some? {
        KnownAt(x, w.ops[i].phase.found.value);
      }
      assert OpOk(x, i);
      LocalStep(w, x, i);
    }
  }

  lemma BeginCommitInv(w: World, maxImage: nat, owner: nat, image: bytes)
    requires Inv(w)
    ensures Inv(Next(w, maxImage, BeginCommit(owner, image)).value)
  {
    var x := Next(w, maxImage, BeginCommit(owner, image)).value;
    OwnerOfOk(w, owner);
    var start := StartCommit(OwnerOf(w, owner), image, maxImage);
    if start.Proceed? { KnownKept(w, x, start.held.generation, start.held.etag); }
    assert OpOk(x, |w.ops|);
    AddOp(w, x);
  }

  lemma BeginLoadInv(w: World, maxImage: nat, owner: nat, initial: bytes)
    requires Inv(w)
    ensures Inv(Next(w, maxImage, BeginLoad(owner, initial)).value)
  {
    var x := Next(w, maxImage, BeginLoad(owner, initial)).value;
    assert OpOk(x, |w.ops|);
    AddOp(w, x);
  }

  /** Steps of one operation: a digest, a read, a refused write, a lost answer. */
  lemma OneOpInv(w: World, maxImage: nat, step: Step, i: nat)
    requires Inv(w) && Next(w, maxImage, step).Some?
    requires (step.Hashed? && step.op == i) || (step.ReadStore? && step.op == i) || (step.GiveUp? && step.op == i)
             || (step.Arrive? && step.op == i && !ConditionHolds(w, w.ops[i]))
    ensures Inv(Next(w, maxImage, step).value)
  {
    var x := Next(w, maxImage, step).value;
    OpStep(w, x, i);
    OwnerOfOk(w, w.ops[i].owner);
    OwnerKept(w, x, OwnerOf(w, w.ops[i].owner));
    assert OpOk(x, i);
    LocalStep(w, x, i);
  }

  /** Every step keeps the invariant. */
  lemma StepInv(w: World, maxImage: nat, step: Step)
    requires Inv(w)
    ensures Next(w, maxImage, step).Some? ==> Inv(Next(w, maxImage, step).value)
  {
    hide ChainOk, OwnerOk;
    if Next(w, maxImage, step).Some? {
      match step
      case BeginCommit(owner, image) => BeginCommitInv(w, maxImage, owner, image);
      case BeginLoad(owner, initial) => BeginLoadInv(w, maxImage, owner, initial);
      case Hashed(i, ok) => OneOpInv(w, maxImage, step, i);
      case ReadStore(i) => OneOpInv(w, maxImage, step, i);
      case GiveUp(i) => OneOpInv(w, maxImage, step, i);
      case TakeRead(i) =>
        assert OpOk(w, i);
        ReadInv(w, maxImage, i);
      case Arrive(i, etag) =>
        if ConditionHolds(w, w.ops[i]) { ArriveInv(w, i, etag); } else { OneOpInv(w, maxImage, step, i); }
      case TakeReply(i, blank) => ReplyInv(w, i, blank);
    }
  }

  lemma {:induction false} RunInv(w: World, maxImage: nat, run: seq<Step>)
    requires Initial(w)
    ensures Inv(Execute(w, maxImage, run))
    decreases |run|
  {
    if run == [] {
      InitialInv(w);
    } else {
      RunInv(w, maxImage, run[..|run| - 1]);
      StepInv(Execute(w, maxImage, run[..|run| - 1]), maxImage, run[|run| - 1]);
    }
  }

  // ---------------------------------------------------------------- what every run keeps

  /** Versions form one chain: generations count up one by one, and tags never repeat. */
  lemma VersionsFormAChain(w: World, maxImage: nat, run: seq<Step>, j: nat, k: nat)
    requires Initial(w)
    requires var x := Execute(w, maxImage, run); j < k < |x.history|
    ensures var x := Execute(w, maxImage, run);
            && x.history[j].etag != x.history[k].etag
            && x.history[j].generation.Some? && x.history[k].generation == Some(x.history[j].generation.value + k - j)
  {
    RunInv(w, maxImage, run);
    CountUp(Execute(w, maxImage, run), j, k);
  }

  lemma {:induction false} CountUp(x: World, j: nat, k: nat)
    requires ChainOk(x) && j < k < |x.history|
    ensures x.history[j].generation.Some? && x.history[k].generation == Some(x.history[j].generation.value + k - j)
    decreases k - j
  {
    assert Linked(x, k);
    if j + 1 < k { CountUp(x, j, k - 1); }
  }

  /** A "committed" answer means the image replaced exactly the version its owner held when the commit started. */
  lemma CommittedReplacedHeld(w: World, maxImage: nat, run: seq<Step>, i: nat)
    requires Initial(w)
    requires var x := Execute(w, maxImage, run); i < |x.ops| && x.ops[i].phase == Finished(Committed)
    ensures var x := Execute(w, maxImage, run);
            && x.ops[i].held.Some? && x.ops[i].request.Applied?
            && (var k, held := x.ops[i].request.version, x.ops[i].held.value;
                && 1 <= k < |x.history|
                && x.history[k - 1].etag == held.etag && x.history[k - 1].generation == Some(held.generation)
                && x.history[k].generation == Some(held.generation + 1)
                && x.history[k].image == x.ops[i].image && x.history[k].author == Some(i))
  {
    RunInv(w, maxImage, run);
    var x := Execute(w, maxImage, run);
    assert OpOk(x, i);
    var k := x.ops[i].request.version;
    assert Linked(x, k) && AuthorOk(x, k);
  }

  /** At most one commit is acknowledged for each generation. */
  lemma OneCommitPerGeneration(w: World, maxImage: nat, run: seq<Step>, i: nat, j: nat)
    requires Initial(w)
    requires var x := Execute(w, maxImage, run);
             && i < |x.ops| && j < |x.ops| && x.ops[i].phase == Finished(Committed) && x.ops[j].phase == Finished(Committed)
             && x.ops[i].held.Some? && x.ops[j].held.Some?
             && x.ops[i].held.value.generation == x.ops[j].held.value.generation
    ensures i == j
  {
    CommittedReplacedHeld(w, maxImage, run, i);
    CommittedReplacedHeld(w, maxImage, run, j);
    RunInv(w, maxImage, run);
    var x := Execute(w, maxImage, run);
    var a, b := x.ops[i].request.version, x.ops[j].request.version;
    if a < b { CountUp(x, a, b); }
    if b < a { CountUp(x, b, a); }
  }

  /**
   * A load returns the last image acknowledged before it started, or a later version: every commit acknowledged by
   * then is at or before the version it returns.
   */
  lemma LoadSeesAcknowledged(w: World, maxImage: nat, before: seq<Step>, owner: nat, initial: bytes, after: seq<Step>, i: nat)
    requires Initial(w)
    requires i < |Execute(w, maxImage, before).ops| && Execute(w, maxImage, before).ops[i].phase == Finished(Committed)
    requires var x := Execute(w, maxImage, before + [BeginLoad(owner, initial)] + after);
             var load := |Execute(w, maxImage, before).ops|;
             load < |x.ops| && x.ops[load].phase.Finished? && x.ops[load].phase.outcome.Loaded?
    ensures var x := Execute(w, maxImage, before + [BeginLoad(owner, initial)] + after);
            var loaded := x.ops[|Execute(w, maxImage, before).ops|].phase.outcome.version;
            && i < |x.ops| && x.ops[i].request.Applied? && x.ops[i].request.version <= loaded < |x.history|
            && x.history[x.ops[i].request.version].image == x.ops[i].image
  {
    var y := Execute(w, maxImage, before);
    var started := before + [BeginLoad(owner, initial)];
    assert started[..|started| - 1] == before && started[|started| - 1] == BeginLoad(owner, initial);
    var z := Execute(w, maxImage, started);
    RunInv(w, maxImage, before);
    RunInv(w, maxImage, started);
    RunInv(w, maxImage, started + after);
    assert OpOk(y, i);
    RunKeepsOps(w, maxImage, started, after);
    var x := Execute(w, maxImage, started + after);
    var load := |y.ops|;
    assert z.ops[load].floor == y.acked && z.ops[i] == y.ops[i];
    assert OpOk(x, load) && OpOk(x, i);
    assert AuthorOk(x, x.ops[i].request.version);
  }

  /** Later steps keep finished operations, applied requests and the floor of every operation. */
  ghost predicate OpsKept(x: World, y: World) {
    && |x.ops| <= |y.ops| && x.history <= y.history
    && forall i :: 0 <= i < |x.ops| ==>
         && y.ops[i].floor == x.ops[i].floor && y.ops[i].owner == x.ops[i].owner && y.ops[i].held == x.ops[i].held
         && (x.ops[i].request.Applied? ==> y.ops[i].request == x.ops[i].request)
         && (x.ops[i].phase.Finished? ==> y.ops[i].phase == x.ops[i].phase)
  }

  lemma {:induction false} RunKeepsOps(w: World, maxImage: nat, before: seq<Step>, after: seq<Step>)
    requires Initial(w)
    ensures OpsKept(Execute(w, maxImage, before), Execute(w, maxImage, before + after))
    decreases |after|
  {
    if after == [] {
      assert before + after == before;
    } else {
      var front, step := after[..|after| - 1], after[|after| - 1];
      RunKeepsOps(w, maxImage, before, front);
      assert (before + after)[..|before + after| - 1] == before + front;
      RunInv(w, maxImage, before + front);
      var x := Execute(w, maxImage, before + front);
      if Next(x, maxImage, step).Some? { StepKeepsOps(x, maxImage, step); }
    }
  }

  lemma StepKeepsOps(x: World, maxImage: nat, step: Step)
    requires Inv(x) && Next(x, maxImage, step).Some?
    ensures OpsKept(x, Next(x, maxImage, step).value)
  {
    if step.Hashed? || step.TakeRead? { assert OpOk(x, step.op); }
  }

  // ---------------------------------------------------------------- what a load accepts

  /** A version whose digest matches, that is not too large, and that carries an ETag and a safe generation. */
  ghost predicate Trusted(record: Version, maxImage: nat) {
    && record.sound && |record.image| <= maxImage && record.etag != ""
    && record.generation.Some? && record.generation.value <= 9007199254740991
  }

  ghost predicate LoadsOk(w: World, maxImage: nat) {
    && (forall k :: 0 <= k < |w.history| && w.history[k].author.Some? ==> w.history[k].sound && w.history[k].etag != "")
    && (forall i :: 0 <= i < |w.ops| ==> LoadOk(w, maxImage, w.ops[i]))
  }

  ghost predicate LoadOk(w: World, maxImage: nat, op: Op) {
    && (op.phase.Creating? ==> |op.image| <= maxImage)
    && (op.phase.Finished? && op.phase.outcome.Loaded? ==>
          op.phase.outcome.version < |w.history| && Trusted(w.history[op.phase.outcome.version], maxImage))
    && (op.phase == Finished(Rejected) ==> op.request == NotSent)
  }

  /** A write that created the object makes a version that can be trusted. */
  lemma ReplyLoadOk(w: World, maxImage: nat, i: nat, blank: bool)
    requires Inv(w) && LoadsOk(w, maxImage) && i < |w.ops| && (w.ops[i].request.Applied? || w.ops[i].request.Refused?)
    requires TakeReplyOf(w, i, blank).Some?
    ensures var x := TakeReplyOf(w, i, blank).value; |x.ops| == |w.ops| && LoadOk(x, maxImage, x.ops[i])
  {
    assert OpOk(w, i) && LoadOk(w, maxImage, w.ops[i]);
    if w.ops[i].request.Applied? { assert AuthorOk(w, w.ops[i].request.version); }
    hide ChainOk, Known, OwnerOk, Inv, OwnerOf, SetOwner;
  }

  /** The operation of any other step, and every operation it does not touch. */
  lemma StepLoadOk(w: World, maxImage: nat, step: Step, i: nat)
    requires Inv(w) && LoadsOk(w, maxImage) && Next(w, maxImage, step).Some? && i < |Next(w, maxImage, step).value.ops|
    requires step.TakeReply? ==> step.op != i
    ensures LoadOk(Next(w, maxImage, step).value, maxImage, Next(w, maxImage, step).value.ops[i])
  {
    if i < |w.ops| { assert OpOk(w, i) && LoadOk(w, maxImage, w.ops[i]); }
    hide ChainOk, Known, OwnerOk, Inv, LoadsOk, ConditionHolds, FreshTag, OwnerOf, SetOwner, AppliedOk, Freeze, Adopt;
  }

  lemma StepLoads(w: World, maxImage: nat, step: Step)
    requires Inv(w) && LoadsOk(w, maxImage) && Next(w, maxImage, step).Some?
    ensures LoadsOk(Next(w, maxImage, step).value, maxImage)
  {
    var x := Next(w, maxImage, step).value;
    forall i | 0 <= i < |x.ops| ensures LoadOk(x, maxImage, x.ops[i]) {
      if step.TakeReply? && step.op == i {
        ReplyLoadOk(w, maxImage, i, step.blank);
      } else {
        StepLoadOk(w, maxImage, step, i);
      }
    }
    hide Inv, LoadOk;
  }

  lemma {:induction false} RunLoads(w: World, maxImage: nat, run: seq<Step>)
    requires Initial(w)
    ensures LoadsOk(Execute(w, maxImage, run), maxImage)
    decreases |run|
  {
    if run != [] {
      var front := run[..|run| - 1];
      RunLoads(w, maxImage, front);
      RunInv(w, maxImage, front);
      var x := Execute(w, maxImage, front);
      if Next(x, maxImage, run[|run| - 1]).Some? { StepLoads(x, maxImage, run[|run| - 1]); }
    }
  }

  /** Main result: in every run, a load returns only versions whose digest, size, ETag and generation are good. */
  lemma LoadedIsTrusted(w: World, maxImage: nat, run: seq<Step>, i: nat)
    requires Initial(w)
    requires var x := Execute(w, maxImage, run);
             i < |x.ops| && x.ops[i].phase.Finished? && x.ops[i].phase.outcome.Loaded?
    ensures var x := Execute(w, maxImage, run);
            var k := x.ops[i].phase.outcome.version;
            && k < |x.history| && x.history[k].sound && |x.history[k].image| <= maxImage && x.history[k].etag != ""
            && x.history[k].generation.Some? && x.history[k].generation.value <= 9007199254740991
  {
    RunLoads(w, maxImage, run);
    var x := Execute(w, maxImage, run);
    assert LoadOk(x, maxImage, x.ops[i]);
  }

  /**
   * Main result: in every run, a version that was read is adopted exactly when its digest, size, ETag and generation
   * are good; any other is refused as corrupt, and nothing else changes.
   */
  lemma ReadIsJudged(w: World, maxImage: nat, run: seq<Step>, i: nat, k: nat)
    requires Initial(w)
    requires var x := Execute(w, maxImage, run);
             i < |x.ops| && x.ops[i].phase.ReadDone? && x.ops[i].phase.found == Some(k)
    ensures var x := Execute(w, maxImage, run);
            var next := Next(x, maxImage, TakeRead(i));
            && k < |x.history| && next.Some?
            && (var y, record := next.value, x.history[k];
                var good := record.sound && |record.image| <= maxImage && record.etag != ""
                            && record.generation.Some? && record.generation.value <= 9007199254740991;
                && y.history == x.history && y.acked == x.acked && |y.ops| == |x.ops|
                && (forall j :: 0 <= j < |x.ops| && j != i ==> y.ops[j] == x.ops[j])
                && y.ops[i].phase == (if good then Finished(Loaded(k)) else Finished(LoadFailed(CorruptStore)))
                && (!good ==> y.owners == x.owners)
                && (good ==> OwnerOf(y, x.ops[i].owner) ==
                             Ownership(record.generation, Some(record.etag), OwnerOf(x, x.ops[i].owner).available)))
  {
    RunInv(w, maxImage, run);
    assert OpOk(Execute(w, maxImage, run), i);
  }

  /** In every run, a commit answered "rejected" was never sent, and no version is its work. */
  lemma RejectedNeverWritten(w: World, maxImage: nat, run: seq<Step>, i: nat, k: nat)
    requires Initial(w)
    requires var x := Execute(w, maxImage, run); i < |x.ops| && x.ops[i].phase == Finished(Rejected) && k < |x.history|
    ensures var x := Execute(w, maxImage, run); x.ops[i].request == NotSent && x.history[k].author != Some(i)
  {
    RunLoads(w, maxImage, run);
    RunInv(w, maxImage, run);
    var x := Execute(w, maxImage, run);
    assert LoadOk(x, maxImage, x.ops[i]) && AuthorOk(x, k);
  }

  // ---------------------------------------------------------------- freezing

  /** The operation answered "unknown" after it sent a write. */
  predicate LostWrite(w: World, i: nat) {
    i < |w.ops| && w.ops[i].phase == Finished(Unknown) && w.ops[i].request != NotSent
  }

  /** Every owner that answered "unknown" after a write is frozen, and that write was a commit's. */
  ghost predicate FrozenOk(w: World) {
    forall i :: 0 <= i < |w.ops| && LostWrite(w, i) ==> !OwnerOf(w, w.ops[i].owner).available && w.ops[i].held.Some?
  }

  lemma {:induction false} RunFrozen(w: World, maxImage: nat, run: seq<Step>)
    requires Initial(w)
    ensures FrozenOk(Execute(w, maxImage, run))
    decreases |run|
  {
    if run != [] {
      var front := run[..|run| - 1];
      RunFrozen(w, maxImage, front);
      RunInv(w, maxImage, front);
      var x := Execute(w, maxImage, front);
      if Next(x, maxImage, run[|run| - 1]).Some? { StepFrozen(x, maxImage, run[|run| - 1]); }
    }
  }

  /** What a frozen owner begins is finished at once, and it stays frozen. */
  lemma StepBegins(x: World, maxImage: nat, step: Step, owner: nat)
    requires Next(x, maxImage, step).Some? && !OwnerOf(x, owner).available
    ensures var y := Next(x, maxImage, step).value;
            && !OwnerOf(y, owner).available
            && forall i: nat :: |x.ops| <= i < |y.ops| && y.ops[i].owner == owner ==> y.ops[i].phase.Finished?
  {
  }

  /** A step that answers "unknown" for a write freezes the owner. */
  lemma StepLoses(x: World, maxImage: nat, step: Step, i: nat)
    requires Inv(x) && Next(x, maxImage, step).Some?
    requires LostWrite(Next(x, maxImage, step).value, i) && !LostWrite(x, i)
    ensures var y := Next(x, maxImage, step).value; !OwnerOf(y, y.ops[i].owner).available && y.ops[i].held.Some?
  {
    if i < |x.ops| { assert OpOk(x, i); }
    hide ChainOk, Known, AppliedOk, OwnerOk;
  }

  lemma StepFrozen(x: World, maxImage: nat, step: Step)
    requires Inv(x) && FrozenOk(x) && Next(x, maxImage, step).Some?
    ensures FrozenOk(Next(x, maxImage, step).value)
  {
    StepKeepsOps(x, maxImage, step);
    hide Next, Inv;
    var y := Next(x, maxImage, step).value;
    forall i | 0 <= i < |y.ops| && LostWrite(y, i)
      ensures !OwnerOf(y, y.ops[i].owner).available && y.ops[i].held.Some?
    {
      if LostWrite(x, i) { StepBegins(x, maxImage, step, x.ops[i].owner); } else { StepLoses(x, maxImage, step, i); }
    }
  }

  /** Once an owner answered "unknown" after a write, whatever it begins is answered at once, without a write. */
  lemma FrozenBeginsNothing(w: World, maxImage: nat, run: seq<Step>, i: nat, image: bytes)
    requires Initial(w) && LostWrite(Execute(w, maxImage, run), i)
    ensures var x := Execute(w, maxImage, run);
            var commit := Next(x, maxImage, BeginCommit(x.ops[i].owner, image)).value;
            var load := Next(x, maxImage, BeginLoad(x.ops[i].owner, image)).value;
            && commit.ops == x.ops + [Op(x.ops[i].owner, image, None, Finished(Unknown), NotSent, x.acked)]
            && load.ops == x.ops + [Op(x.ops[i].owner, image, None, Finished(LoadFailed(Storage)), NotSent, x.acked)]
  {
    RunFrozen(w, maxImage, run);
  }

  /** A step that sends a write for an operation of `owner`. */
  ghost predicate Sends(x: World, maxImage: nat, step: Step, owner: nat) {
    Next(x, maxImage, step).Some? &&
    exists i: nat :: i < |Next(x, maxImage, step).value.ops| && Next(x, maxImage, step).value.ops[i].owner == owner
                     && Next(x, maxImage, step).value.ops[i].request == Sent
                     && (i < |x.ops| ==> x.ops[i].request != Sent)
  }

  /**
   * When an owner can still send a write: exactly when one of its commits had passed the availability check and was
   * computing its digest, or one of its loads had found no object.
   */
  lemma SendsExactlyWhen(x: World, maxImage: nat, step: Step, owner: nat)
    requires Inv(x)
    ensures Sends(x, maxImage, step, owner) <==>
            || (step.Hashed? && step.ok && step.op < |x.ops| && x.ops[step.op].owner == owner && x.ops[step.op].phase.Hashing?)
            || (step.TakeRead? && step.op < |x.ops| && x.ops[step.op].owner == owner
                && x.ops[step.op].phase == ReadDone(false, None) && |x.ops[step.op].image| <= maxImage)
  {
    if Next(x, maxImage, step).Some? {
      var y := Next(x, maxImage, step).value;
      if step.Hashed? || step.TakeRead? {
        assert OpOk(x, step.op);
        assert y.ops[step.op].request == Sent ==> step.op < |y.ops| && y.ops[step.op].owner == x.ops[step.op].owner;
      }
    }
  }

  /**
   * What an owner may still send: the write of a commit that is computing its digest, or the first version for a load
   * that found no object.
   */
  ghost predicate Unsent(x: World, maxImage: nat, i: nat)
    requires i < |x.ops|
  {
    x.ops[i].phase.Hashing? || (x.ops[i].phase == ReadDone(false, None) && |x.ops[i].image| <= maxImage)
  }

  ghost predicate MaySend(x: World, maxImage: nat, owner: nat) {
    exists i: nat :: i < |x.ops| && x.ops[i].owner == owner && Unsent(x, maxImage, i)
  }

  /** A frozen owner of an object that exists and that has nothing left to send. */
  ghost predicate Silent(x: World, maxImage: nat, owner: nat) {
    x.history != [] && !OwnerOf(x, owner).available && !MaySend(x, maxImage, owner)
  }

  /** The owner runs no operation. */
  ghost predicate Idle(x: World, owner: nat) {
    forall i :: 0 <= i < |x.ops| && x.ops[i].owner == owner ==> x.ops[i].phase.Finished?
  }

  /** Once the object exists, no operation comes to have something to send. */
  lemma StepUnsent(x: World, maxImage: nat, step: Step, i: nat)
    requires x.history != [] && Next(x, maxImage, step).Some? && i < |x.ops|
    ensures var y := Next(x, maxImage, step).value;
            && y.history != [] && i < |y.ops| && y.ops[i].owner == x.ops[i].owner
            && (Unsent(y, maxImage, i) ==> Unsent(x, maxImage, i))
  {
  }

  lemma SilentStep(x: World, maxImage: nat, step: Step, owner: nat)
    requires Inv(x) && Silent(x, maxImage, owner)
    ensures !Sends(x, maxImage, step, owner)
    ensures Next(x, maxImage, step).Some? ==> Silent(Next(x, maxImage, step).value, maxImage, owner)
    ensures Next(x, maxImage, step).Some? && Idle(x, owner) ==> Idle(Next(x, maxImage, step).value, owner)
  {
    SendsExactlyWhen(x, maxImage, step, owner);
    if (step.Hashed? || step.TakeRead?) && step.op < |x.ops| && x.ops[step.op].owner == owner {
      assert !Unsent(x, maxImage, step.op);
    }
    if Next(x, maxImage, step).Some? {
      StepKeepsOps(x, maxImage, step);
      StepBegins(x, maxImage, step, owner);
      hide Next, Inv, Sends;
      var y := Next(x, maxImage, step).value;
      forall i: nat | i < |x.ops| ensures y.history != [] && (Unsent(y, maxImage, i) ==> Unsent(x, maxImage, i)) {
        StepUnsent(x, maxImage, step, i);
      }
      forall i: nat | i < |y.ops| && y.ops[i].owner == owner ensures !Unsent(y, maxImage, i) {
        if i < |x.ops| { assert !Unsent(x, maxImage, i); }
      }
    }
  }

  lemma {:induction false} SilentRun(w: World, maxImage: nat, run: seq<Step>, after: seq<Step>, owner: nat)
    requires Initial(w) && Silent(Execute(w, maxImage, run), maxImage, owner)
    ensures Silent(Execute(w, maxImage, run + after), maxImage, owner)
    ensures Idle(Execute(w, maxImage, run), owner) ==> Idle(Execute(w, maxImage, run + after), owner)
    decreases |after|
  {
    hide Silent, Idle, Next, Initial;
    if after == [] {
      assert run + after == run;
    } else {
      var front := after[..|after| - 1];
      assert (run + after)[..|run + after| - 1] == run + front;
      SilentRun(w, maxImage, run, front, owner);
      RunInv(w, maxImage, run + front);
      SilentStep(Execute(w, maxImage, run + front), maxImage, after[|after| - 1], owner);
    }
  }

  /** A step that sends what is left to send. */
  lemma SendNow(x: World, maxImage: nat, i: nat) returns (step: Step)
    requires Inv(x) && i < |x.ops| && Unsent(x, maxImage, i)
    ensures Sends(x, maxImage, step, x.ops[i].owner)
  {
    step := if x.ops[i].phase.Hashing? then Hashed(i, true) else TakeRead(i);
    SendsExactlyWhen(x, maxImage, step, x.ops[i].owner);
  }

  lemma FrozenHistory(w: World, maxImage: nat, run: seq<Step>, i: nat)
    requires Initial(w) && LostWrite(Execute(w, maxImage, run), i)
    ensures var x := Execute(w, maxImage, run); x.history != [] && !OwnerOf(x, x.ops[i].owner).available
  {
    RunInv(w, maxImage, run);
    RunFrozen(w, maxImage, run);
    assert OpOk(Execute(w, maxImage, run), i);
  }

  /**
   * Main result: after an "unknown" answer for a write, the owner sends another write, at some point of some
   * continuation of the run, exactly when it then has a commit that is computing its digest or a load that found no
   * object.
   */
  lemma SendsAfterUnknown(w: World, maxImage: nat, run: seq<Step>, i: nat)
    requires Initial(w) && LostWrite(Execute(w, maxImage, run), i)
    ensures var x := Execute(w, maxImage, run);
            var owner := x.ops[i].owner;
            (exists after, step :: Sends(Execute(w, maxImage, run + after), maxImage, step, owner)) <==> MaySend(x, maxImage, owner)
  {
    var x := Execute(w, maxImage, run);
    var owner := x.ops[i].owner;
    RunInv(w, maxImage, run);
    FrozenHistory(w, maxImage, run, i);
    hide Inv, Next, Execute, Sends, Initial;
    if MaySend(x, maxImage, owner) {
      var j: nat :| j < |x.ops| && x.ops[j].owner == owner && Unsent(x, maxImage, j);
      var step := SendNow(x, maxImage, j);
      assert run + [] == run;
      assert Sends(Execute(w, maxImage, run + []), maxImage, step, owner);
    } else {
      forall after, step ensures !Sends(Execute(w, maxImage, run + after), maxImage, step, owner) {
        SilentRun(w, maxImage, run, after, owner);
        RunInv(w, maxImage, run + after);
        SilentStep(Execute(w, maxImage, run + after), maxImage, step, owner);
      }
    }
  }

  /** With one operation at a time for each owner, no write follows an "unknown" answer, however the run continues. */
  lemma SerialOwnerStaysSilent(w: World, maxImage: nat, run: seq<Step>, i: nat, after: seq<Step>, step: Step)
    requires Initial(w) && LostWrite(Execute(w, maxImage, run), i)
    requires Idle(Execute(w, maxImage, run), Execute(w, maxImage, run).ops[i].owner)
    ensures var owner := Execute(w, maxImage, run).ops[i].owner;
            && !Sends(Execute(w, maxImage, run + after), maxImage, step, owner)
            && Idle(Execute(w, maxImage, run + after), owner) && !OwnerOf(Execute(w, maxImage, run + after), owner).available
  {
    SendsAfterUnknown(w, maxImage, run, i);
    FrozenHistory(w, maxImage, run, i);
    SilentRun(w, maxImage, run, after, Execute(w, maxImage, run).ops[i].owner);
  }

  /** Two commits of one owner overlap: one is answered "unknown", and the other still sends its write afterwards. */
  const OVERLAP: seq<Step> := [
    BeginLoad(0, []), ReadStore(0), TakeRead(0),
    BeginCommit(0, []), BeginCommit(0, []), Hashed(1, true), GiveUp(1)]

  const STORED := Version([], "a", Some(0), true, None)
  const OWNED := Ownership(Some(0), Some("a"), true)
  const LOADING := Op(0, [], None, Reading(false), NotSent, 0)
  const LOADED := LOADING.(phase := Finished(Loaded(0)))
  const COMMITTING := Op(0, [], Some(Held(0, "a")), Hashing, NotSent, 0)

  /** The world after each step of `OVERLAP`. */
  const OVERLAP_WORLDS: seq<World> := [
    World([STORED], map[], [], 0),
    World([STORED], map[], [LOADING], 0),
    World([STORED], map[], [LOADING.(phase := ReadDone(false, Some(0)))], 0),
    World([STORED], map[0 := OWNED], [LOADED], 0),
    World([STORED], map[0 := OWNED], [LOADED, COMMITTING], 0),
    World([STORED], map[0 := OWNED], [LOADED, COMMITTING, COMMITTING], 0),
    World([STORED], map[0 := OWNED], [LOADED, COMMITTING.(phase := Writing, request := Sent), COMMITTING], 0),
    World([STORED], map[0 := OWNED.(available := false)],
          [LOADED, COMMITTING.(phase := Finished(Unknown), request := Sent), COMMITTING], 0)]

  lemma OverlapLoads(k: nat)
    requires k < 3
    ensures Next(OVERLAP_WORLDS[k], 10, OVERLAP[k]) == Some(OVERLAP_WORLDS[k + 1])
  {
    hide TakeReplyOf, StartCommit;
    assert Valid(STORED, 10) && Adopt(UNOWNED, 0, "a") == OWNED && StartLoad(UNOWNED) == None;
    var x := Next(OVERLAP_WORLDS[k], 10, OVERLAP[k]).value;
    assert x.ops == OVERLAP_WORLDS[k + 1].ops;
    assert x.owners == OVERLAP_WORLDS[k + 1].owners;
  }

  lemma OverlapCommits(k: nat)
    requires 3 <= k < |OVERLAP|
    ensures Next(OVERLAP_WORLDS[k], 10, OVERLAP[k]) == Some(OVERLAP_WORLDS[k + 1])
  {
    hide TakeReplyOf, TakeReadOf, StartLoad;
    assert StartCommit(OWNED, [], 10) == Proceed(Held(0, "a"));
    var x := Next(OVERLAP_WORLDS[k], 10, OVERLAP[k]).value;
    assert x.ops == OVERLAP_WORLDS[k + 1].ops;
    assert x.owners == OVERLAP_WORLDS[k + 1].owners;
  }

  lemma {:induction false} OverlapRuns(k: nat)
    requires k <= |OVERLAP|
    ensures Execute(OVERLAP_WORLDS[0], 10, OVERLAP[..k]) == OVERLAP_WORLDS[k]
    decreases k
  {
    hide Next;
    if k > 0 {
      OverlapRuns(k - 1);
      if k <= 3 { OverlapLoads(k - 1); } else { OverlapCommits(k - 1); }
      assert OVERLAP[..k][..k - 1] == OVERLAP[..k - 1];
    }
  }

  lemma OverlappingCommitsStillWrite()
    ensures Initial(OVERLAP_WORLDS[0])
    ensures var x := Execute(OVERLAP_WORLDS[0], 10, OVERLAP);
            LostWrite(x, 1) && Sends(x, 10, Hashed(2, true), x.ops[1].owner)
  {
    hide Execute;
    OverlapRuns(|OVERLAP|);
    assert OVERLAP[..|OVERLAP|] == OVERLAP;
    OverlapSends(OVERLAP_WORLDS[7]);
  }

  lemma OverlapSends(x: World)
    requires |x.ops| == 3 && x.ops[2].phase == Hashing && x.ops[2].owner == x.ops[1].owner && x.ops[2].request == NotSent
    ensures Sends(x, 10, Hashed(2, true), x.ops[1].owner)
  {
    assert Next(x, 10, Hashed(2, true)).value.ops[2].request == Sent;
  }
}
