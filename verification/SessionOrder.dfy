/** Moved sections land in the order in which the recordings were made. */
module SessionOrder {
  import opened Wrappers
  import opened EditorDelta
  import opened FlatSections
  import opened SessionMove

  /** Recording times of the positions of a document; none where no recording owns it. */
  ghost predicate InOrder(times: seq<Option<int>>) {
    forall i, j :: 0 <= i < j < |times| && times[i].Some? && times[j].Some? ==> times[i].value <= times[j].value
  }

  lemma SpliceInOrder(times: seq<Option<int>>, at: nat, slice: seq<Option<int>>, time: int)
    requires InOrder(times) && at <= |times|
    requires forall i :: 0 <= i < |slice| ==> slice[i] == None || slice[i] == Some(time)
    requires forall i :: 0 <= i < at && times[i].Some? ==> times[i].value <= time
    requires forall i :: at <= i < |times| && times[i].Some? ==> time <= times[i].value
    ensures InOrder(times[..at] + slice + times[at..])
  {
  }

  // ---------------------------------------------------------------- flat documents

  function OwnerOf(cell: Cell): Option<string> {
    if "session_id" in cell.attributes && cell.attributes["session_id"].Str?
    then Some(cell.attributes["session_id"].s) else None
  }

  function TimeOf(cell: Cell, recorded: string -> int): Option<int> {
    match OwnerOf(cell) case Some(owner) => Some(recorded(owner)) case None => None
  }

  function Times(cells: seq<Cell>, recorded: string -> int): (times: seq<Option<int>>)
    ensures |times| == |cells|
  {
    seq(|cells|, i requires 0 <= i < |cells| => TimeOf(cells[i], recorded))
  }

  /** The recordings made after `session`, earliest first: all of them that own text
      in the document, and no other has its time. */
  ghost predicate LaterSessions(cells: seq<Cell>, recorded: string -> int, session: string, later: seq<string>) {
    && (forall i, j :: 0 <= i < j < |later| ==> recorded(later[i]) < recorded(later[j]))
    && (forall i :: 0 <= i < |later| ==> recorded(session) < recorded(later[i]))
    && forall p :: 0 <= p < |cells| && OwnerOf(cells[p]).Some? ==>
         var owner := OwnerOf(cells[p]).value;
         recorded(owner) < recorded(session) || owner in later
  }

  lemma CellBeforeAnchor(cells: seq<Cell>, recorded: string -> int, session: string, later: seq<string>,
                         k: nat, r: Range, p: nat)
    requires LaterSessions(cells, recorded, session, later) && InOrder(Times(cells, recorded))
    requires k < |later| && IsSection(cells, later[k], r) && forall i :: 0 <= i < k ==> NoSection(cells, later[i])
    requires p < |cells| && OwnerOf(cells[p]).Some?
    ensures p < r.pos ==> recorded(OwnerOf(cells[p]).value) < recorded(session)
    ensures p >= r.pos ==> recorded(session) < recorded(OwnerOf(cells[p]).value)
  {
    var owner := OwnerOf(cells[p]).value;
    assert Owned(cells[r.pos], later[k]);
    var times := Times(cells, recorded);
    assert times[p] == Some(recorded(owner)) && times[r.pos] == Some(recorded(later[k]));
    if owner in later {
      var j :| 0 <= j < |later| && later[j] == owner;
      assert Owned(cells[p], later[j]);
      assert j >= k;
    }
  }

  lemma CellWithoutLater(cells: seq<Cell>, recorded: string -> int, session: string, later: seq<string>, p: nat)
    requires LaterSessions(cells, recorded, session, later)
    requires forall i :: 0 <= i < |later| ==> NoSection(cells, later[i])
    requires p < |cells| && OwnerOf(cells[p]).Some?
    ensures recorded(OwnerOf(cells[p]).value) < recorded(session)
  {
    var owner := OwnerOf(cells[p]).value;
    assert Owned(cells[p], owner);
    assert forall i :: 0 <= i < |later| ==> later[i] != owner;
  }

  /** The anchor parts the earlier recordings' text from the later ones'. */
  lemma AnchorParts(b: Bridge, target: seq<Cell>, session: string, later: seq<string>, recorded: string -> int,
                    at: nat, p: nat)
    requires Lawful(b) && Anchor(b, target, later).Ok? && InOrder(Times(target, recorded))
    requires at == (match Anchor(b, target, later).value case Some(a) => a case None => |target|)
    requires LaterSessions(target, recorded, session, later) && p < |target| && OwnerOf(target[p]).Some?
    ensures p < at ==> recorded(OwnerOf(target[p]).value) < recorded(session)
    ensures p >= at ==> recorded(session) < recorded(OwnerOf(target[p]).value)
  {
    AnchorIs(b, target, later);
    if Anchor(b, target, later).value.Some? {
      var k, r: Range :| 0 <= k < |later| && r.pos == at && IsSection(target, later[k], r)
        && forall i :: 0 <= i < k ==> NoSection(target, later[i]);
      CellBeforeAnchor(target, recorded, session, later, k, r, p);
    } else {
      CellWithoutLater(target, recorded, session, later, p);
    }
  }

  lemma TimesOfSplice(target: seq<Cell>, at: nat, section: seq<Cell>, recorded: string -> int)
    requires at <= |target|
    ensures Times(target[..at] + section + target[at..], recorded)
         == Times(target, recorded)[..at] + Times(section, recorded) + Times(target, recorded)[at..]
  {
  }

  lemma InsertedInOrder(target: seq<Cell>, at: nat, section: seq<Cell>, recorded: string -> int, time: int)
    requires at <= |target| && InOrder(Times(target, recorded))
    requires forall i :: 0 <= i < |section| ==> Times(section, recorded)[i] == Some(time)
    requires forall p: nat :: p < |target| && OwnerOf(target[p]).Some? ==>
               if p < at then recorded(OwnerOf(target[p]).value) < time else time < recorded(OwnerOf(target[p]).value)
    ensures InOrder(Times(target[..at] + section + target[at..], recorded))
  {
    SpliceInOrder(Times(target, recorded), at, Times(section, recorded), time);
    TimesOfSplice(target, at, section, recorded);
  }

  /** Copying keeps a document in recording order. */
  lemma CopyKeepsOrder(b: Bridge, source: seq<Cell>, target: seq<Cell>, session: string, later: seq<string>,
                       recorded: string -> int)
    requires Lawful(b) && CopyFlat(b, source, target, session, later).Ok?
    requires InOrder(Times(target, recorded))
    requires Section(target, session) == [] ==> LaterSessions(target, recorded, session, later)
    ensures InOrder(Times(CopyFlat(b, source, target, session, later).value, recorded))
  {
    if Section(source, session) != [] && Section(target, session) == [] {
      CopiedSection(b, source, target, session, later);
      var at := match Anchor(b, target, later).value case Some(a) => a case None => |target|;
      forall p: nat | p < |target| && OwnerOf(target[p]).Some?
        ensures if p < at then recorded(OwnerOf(target[p]).value) < recorded(session)
                else recorded(session) < recorded(OwnerOf(target[p]).value)
      {
        AnchorParts(b, target, session, later, recorded, at, p);
      }
      SectionTimes(source, session, recorded);
      InsertedInOrder(target, at, Section(source, session), recorded, recorded(session));
    } else {
      CopyIs(b, source, target, session, later);
    }
  }

  lemma {:induction false} SectionTimes(cells: seq<Cell>, session: string, recorded: string -> int)
    ensures forall i :: 0 <= i < |Section(cells, session)| ==>
              Times(Section(cells, session), recorded)[i] == Some(recorded(session))
  {
    if cells != [] {
      SectionTimes(cells[1..], session, recorded);
      var rest := Section(cells[1..], session);
      assert forall i :: 0 <= i < |rest| ==> Times(rest, recorded)[i] == TimeOf(rest[i], recorded);
    }
  }

  // ------------------------------------------------------------ the block document

  /** A block of the live transcript: a recording's own, or someone's annotation. */
  datatype Block = Block(id: string, owner: string)

  function CaptureOwner(session: string): string { "capture:" + session }

  predicate IsLater(block: Block, later: seq<string>) {
    exists i :: 0 <= i < |later| && block.owner == CaptureOwner(later[i])
  }

  /** A recording's own block, of one of these recordings. */
  ghost predicate IsOwn(block: Block, sessions: seq<string>) {
    exists session :: session in sessions && block.owner == "capture:" + session
  }

  lemma LaterIsOwn(block: Block, later: seq<string>)
    ensures IsLater(block, later) <==> IsOwn(block, later)
  {
    if IsOwn(block, later) {
      var session :| session in later && block.owner == "capture:" + session;
      var i :| 0 <= i < |later| && later[i] == session;
      assert block.owner == CaptureOwner(later[i]);
    }
  }

  /** Where the moved slice goes: before the first block of a later recording. */
  function FirstLater(blocks: seq<Block>, later: seq<string>): (at: nat)
    ensures at <= |blocks|
    ensures at < |blocks| ==> IsLater(blocks[at], later)
    ensures forall i :: 0 <= i < at ==> !IsLater(blocks[i], later)
  {
    if blocks == [] || IsLater(blocks[0], later) then 0 else 1 + FirstLater(blocks[1..], later)
  }

  method FirstLaterCaptureBlock(blocks: seq<Block>, later: seq<string>) returns (id: Option<string>)
    ensures id == if FirstLater(blocks, later) < |blocks| then Some(blocks[FirstLater(blocks, later)].id) else None
    ensures id.None? <==> forall i :: 0 <= i < |blocks| ==> !IsOwn(blocks[i], later)
    ensures id.Some? ==> exists i :: 0 <= i < |blocks| && IsOwn(blocks[i], later) && blocks[i].id == id.value
                                     && forall k :: 0 <= k < i ==> !IsOwn(blocks[k], later)
  {
    forall i | 0 <= i < |blocks| ensures IsLater(blocks[i], later) <==> IsOwn(blocks[i], later) { LaterIsOwn(blocks[i], later); }
    for i := 0 to |blocks|
      invariant forall k :: 0 <= k < i ==> !IsLater(blocks[k], later)
    {
      for j := 0 to |later|
        invariant forall k :: 0 <= k < j ==> blocks[i].owner != CaptureOwner(later[k])
      {
        if blocks[i].owner == CaptureOwner(later[j]) {
          assert IsLater(blocks[i], later);
          return Some(blocks[i].id);
        }
      }
    }
    return None;
  }

  /** A block's recording time, when `recorded` knows its owner. */
  function BlockTimes(blocks: seq<Block>, recorded: map<string, int>): (times: seq<Option<int>>)
    ensures |times| == |blocks|
  {
    seq(|blocks|, i requires 0 <= i < |blocks| =>
      if blocks[i].owner in recorded then Some(recorded[blocks[i].owner]) else None)
  }

  /** Splicing the slice in there keeps the transcript in recording order, and what
      follows the recording before it, annotations included, stays in front. */
  lemma SpliceKeepsOrder(blocks: seq<Block>, slice: seq<Block>, session: string, later: seq<string>,
                         recorded: map<string, int>)
    requires "capture:" + session in recorded && InOrder(BlockTimes(blocks, recorded))
    requires forall i :: 0 <= i < |slice| && slice[i].owner in recorded ==>
               recorded[slice[i].owner] == recorded["capture:" + session]
    requires forall i :: 0 <= i < |blocks| && blocks[i].owner in recorded ==>
               (IsOwn(blocks[i], later) <==> recorded["capture:" + session] < recorded[blocks[i].owner])
    requires forall i :: 0 <= i < |blocks| && IsOwn(blocks[i], later) ==> blocks[i].owner in recorded
    ensures var at := FirstLater(blocks, later);
            InOrder(BlockTimes(blocks[..at] + slice + blocks[at..], recorded))
  {
    var at, times := FirstLater(blocks, later), BlockTimes(blocks, recorded);
    var time := recorded["capture:" + session];
    forall i | 0 <= i < |blocks| ensures IsLater(blocks[i], later) <==> IsOwn(blocks[i], later) { LaterIsOwn(blocks[i], later); }
    forall i | at <= i < |times| && times[i].Some? ensures time <= times[i].value {
      assert times[at].Some? && time < times[at].value;
    }
    SpliceInOrder(times, at, BlockTimes(slice, recorded), time);
    assert BlockTimes(blocks[..at] + slice + blocks[at..], recorded)
        == times[..at] + BlockTimes(slice, recorded) + times[at..];
  }
}
