/**
 The IMAP side: a mailbox as its server keeps it, and the Fetcher's two operations.
 Within one UIDVALIDITY the server assigns ascending UIDs and never reuses one
 (section 2.3.1.1 of RFC 3501); UIDNEXT is reported and nonzero.
 */
module Mailbox {
  import opened Common

  /** A complete source message and its UID. */
  datatype Message = Message(uid: Uint32, raw: Bytes)

  datatype Box = Box(validity: Uint32, uidNext: Uint32, held: map<Uint32, Bytes>, seen: set<Uint32>)

  predicate ValidBox(box: Box) {
    && box.validity > 0 && box.uidNext > 0
    && (forall u <- box.held :: 0 < u < box.uidNext)
    && box.seen <= box.held.Keys
  }

  datatype FetchResult = FetchResult(uidValidity: Uint32, lastUid: Uint32, baseline: bool, messages: seq<Message>)

  function LatestUid(uidNext: Uint32): Uint32 {
    if uidNext == 0 then 0 else uidNext - 1
  }

  // ----- the new mail of a mailbox

  /** The held messages with first <= UID < bound, in ascending order. */
  function HeldBetween(held: map<Uint32, Bytes>, first: nat, bound: nat): seq<Message>
    requires bound <= MAX_UINT32
    decreases bound - first
  {
    if first >= bound then []
    else (if first in held then [Message(first, held[first])] else []) + HeldBetween(held, first + 1, bound)
  }

  /** Exactly those messages, ascending. */
  lemma {:induction false} HeldBetweenIsExact(held: map<Uint32, Bytes>, first: nat, bound: nat)
    requires bound <= MAX_UINT32
    ensures forall m :: m in HeldBetween(held, first, bound) <==> first <= m.uid < bound && m.uid in held && held[m.uid] == m.raw
    ensures Ascending(HeldBetween(held, first, bound))
    decreases bound - first
  {
    if first < bound {
      HeldBetweenIsExact(held, first + 1, bound);
    }
  }

  predicate Ascending(messages: seq<Message>) {
    forall i, j :: 0 <= i < j < |messages| ==> messages[i].uid < messages[j].uid
  }

  function NewMail(box: Box, since: Uint32): seq<Message> {
    HeldBetween(box.held, since + 1, box.uidNext)
  }

  /** What an undisturbed Fetch returns: a baseline, or exactly the messages above sinceUID. */
  function Fetched(box: Box, knownValidity: Uint32, sinceUid: Uint32): FetchResult {
    if knownValidity == 0 || knownValidity != box.validity
    then FetchResult(box.validity, LatestUid(box.uidNext), true, [])
    else FetchResult(box.validity, sinceUid, false, NewMail(box, sinceUid))
  }

  // ----- the answer to UID FETCH first:*

  /** One item of the answer: nil, or a UID with a body that may be absent or unreadable. */
  datatype Response = Nil | Item(uid: Uint32, body: Option<Bytes>)

  /**
   What the server may answer: every held message from first on, once each, with its
   bytes if it has any; below first anything, since first:* includes the last message
   even when its UID is smaller (section 6.4.8 of RFC 3501).
   */
  predicate Answers(box: Box, first: Uint32, responses: seq<Response>) {
    && (forall i | 0 <= i < |responses| && responses[i].Item? && responses[i].uid >= first ::
         responses[i].uid in box.held
         && (responses[i].body.Some? ==> responses[i].body.value == box.held[responses[i].uid]))
    && (forall u <- box.held :: u >= first ==>
         exists i :: 0 <= i < |responses| && responses[i].Item? && responses[i].uid == u)
    && (forall i, j | 0 <= i < j < |responses| && responses[i].Item? && responses[j].Item? ::
         responses[i].uid >= first ==> responses[i].uid != responses[j].uid)
  }

  predicate Relevant(r: Response, first: Uint32) {
    r.Item? && r.uid >= first
  }

  /** The messages of an answer; an error when any relevant body is missing. */
  function Collected(responses: seq<Response>, first: Uint32): Result<seq<Message>> {
    if responses == [] then Ok([])
    else
      var last := responses[|responses| - 1];
      match Collected(responses[..|responses| - 1], first)
      case Err => Err
      case Ok(before) =>
        if !Relevant(last, first) then Ok(before)
        else if last.body.None? then Err
        else Ok(before + [Message(last.uid, last.body.value)])
  }

  lemma {:induction false} CollectedIsExact(responses: seq<Response>, first: Uint32)
    ensures Collected(responses, first).Err? <==>
            exists i :: 0 <= i < |responses| && Relevant(responses[i], first) && responses[i].body.None?
    ensures Collected(responses, first).Ok? ==> forall m :: m in Collected(responses, first).value <==>
            exists i :: 0 <= i < |responses| && Relevant(responses[i], first) && responses[i] == Item(m.uid, Some(m.raw))
  {
    if responses != [] {
      var last := |responses| - 1;
      CollectedIsExact(responses[..last], first);
      if Relevant(responses[last], first) && responses[last].body.None? {
        assert Relevant(responses[last], first);
      }
      if Collected(responses, first).Ok? {
        var before := Collected(responses[..last], first).value;
        forall m
          ensures m in Collected(responses, first).value <==>
                  exists i :: 0 <= i < |responses| && Relevant(responses[i], first) && responses[i] == Item(m.uid, Some(m.raw))
        {
          if i :| 0 <= i < last && Relevant(responses[..last][i], first) && responses[..last][i] == Item(m.uid, Some(m.raw)) {
            assert Relevant(responses[i], first) && m in before;
          }
        }
      }
    }
  }

  lemma {:induction false} CollectedAreDistinct(responses: seq<Response>, first: Uint32)
    requires forall i, j | 0 <= i < j < |responses| && responses[i].Item? && responses[j].Item? ::
      responses[i].uid >= first ==> responses[i].uid != responses[j].uid
    requires Collected(responses, first).Ok?
    ensures var r := Collected(responses, first).value;
      forall i, j :: 0 <= i < j < |r| ==> r[i].uid != r[j].uid
  {
    if responses != [] {
      var last := |responses| - 1;
      CollectedAreDistinct(responses[..last], first);
      CollectedIsExact(responses[..last], first);
    }
  }

  // ----- sorting

  /** sort.Slice by UID. */
  function SortByUid(messages: seq<Message>): (r: seq<Message>)
    ensures multiset(r) == multiset(messages)
  {
    if messages == [] then []
    else
      assert messages == [messages[0]] + messages[1..];
      PlaceByUid(messages[0], SortByUid(messages[1..]))
  }

  function PlaceByUid(m: Message, sorted: seq<Message>): (r: seq<Message>)
    ensures multiset(r) == multiset(sorted) + multiset{m}
  {
    if sorted == [] || m.uid <= sorted[0].uid then [m] + sorted
    else
      assert sorted == [sorted[0]] + sorted[1..];
      [sorted[0]] + PlaceByUid(m, sorted[1..])
  }

  lemma PlacedBehindHead(m: Message, head: Message, rest: seq<Message>)
    requires head.uid < m.uid && forall x <- rest :: head.uid < x.uid
    ensures forall x <- PlaceByUid(m, rest) :: head.uid < x.uid
  {
    forall x <- PlaceByUid(m, rest)
      ensures head.uid < x.uid
    {
      assert x in multiset(PlaceByUid(m, rest));
    }
  }

  lemma HeadAscends(head: Message, rest: seq<Message>)
    requires Ascending(rest) && forall x <- rest :: head.uid < x.uid
    ensures Ascending([head] + rest)
  {
  }

  lemma {:induction false} PlaceAscends(m: Message, sorted: seq<Message>)
    requires Ascending(sorted) && forall i :: 0 <= i < |sorted| ==> sorted[i].uid != m.uid
    ensures Ascending(PlaceByUid(m, sorted))
  {
    if sorted != [] && m.uid > sorted[0].uid {
      PlaceAscends(m, sorted[1..]);
      PlacedBehindHead(m, sorted[0], sorted[1..]);
      HeadAscends(sorted[0], PlaceByUid(m, sorted[1..]));
    }
  }

  lemma {:induction false} SortAscends(messages: seq<Message>)
    requires forall i, j :: 0 <= i < j < |messages| ==> messages[i].uid != messages[j].uid
    ensures Ascending(SortByUid(messages))
  {
    if messages != [] {
      var rest := SortByUid(messages[1..]);
      SortAscends(messages[1..]);
      forall i | 0 <= i < |rest|
        ensures rest[i].uid != messages[0].uid
      {
        assert rest[i] in multiset(rest);
        var k :| 0 <= k < |messages[1..]| && messages[1..][k] == rest[i];
      }
      PlaceAscends(messages[0], rest);
    }
  }

  lemma FirstIsMember(s: seq<Message>)
    ensures s == [] || s[0] in s
  {
  }

  /** An ascending list is determined by its members. */
  lemma {:induction false} AscendingIsUnique(a: seq<Message>, b: seq<Message>)
    requires Ascending(a) && Ascending(b) && forall m :: m in a <==> m in b
    ensures a == b
  {
    if a == [] {
      FirstIsMember(b);
    } else {
      assert a[0] in b && b[0] in a;
      assert a[0] == b[0] by {
        var i :| 0 <= i < |b| && b[i] == a[0];
        var j :| 0 <= j < |a| && a[j] == b[0];
      }
      forall m
        ensures m in a[1..] <==> m in b[1..]
      {
        assert m in a[1..] <==> m in a && m != a[0];
        assert m in b[1..] <==> m in b && m != b[0];
      }
      AscendingIsUnique(a[1..], b[1..]);
    }
  }

  lemma AnswerHolds(box: Box, first: Uint32, responses: seq<Response>, m: Message)
    requires ValidBox(box) && Answers(box, first, responses) && Collected(responses, first).Ok?
    requires m in Collected(responses, first).value
    ensures m in HeldBetween(box.held, first, box.uidNext)
  {
    HeldBetweenIsExact(box.held, first, box.uidNext);
    CollectedIsExact(responses, first);
    var i :| 0 <= i < |responses| && Relevant(responses[i], first) && responses[i] == Item(m.uid, Some(m.raw));
  }

  lemma AnswerOmitsNothing(box: Box, first: Uint32, responses: seq<Response>, m: Message)
    requires ValidBox(box) && Answers(box, first, responses) && Collected(responses, first).Ok?
    requires m in HeldBetween(box.held, first, box.uidNext)
    ensures m in Collected(responses, first).value
  {
    HeldBetweenIsExact(box.held, first, box.uidNext);
    CollectedIsExact(responses, first);
    var i :| 0 <= i < |responses| && responses[i].Item? && responses[i].uid == m.uid;
    assert Relevant(responses[i], first);
    assert responses[i] == Item(m.uid, Some(m.raw));
  }

  lemma SameMembers(a: seq<Message>, b: seq<Message>)
    requires multiset(a) == multiset(b)
    ensures forall m :: m in a <==> m in b
  {
    assert forall m :: m in a <==> m in multiset(a);
    assert forall m :: m in b <==> m in multiset(b);
  }

  /** Whatever order and extra items the server answers with, the sorted result is the new mail. */
  lemma AnswerIsNewMail(box: Box, since: Uint32, responses: seq<Response>)
    requires ValidBox(box) && since < MAX_UINT32 && Answers(box, since + 1, responses)
    requires Collected(responses, since + 1).Ok?
    ensures SortByUid(Collected(responses, since + 1).value) == NewMail(box, since)
  {
    var first := since + 1;
    var got := Collected(responses, first).value;
    HeldBetweenIsExact(box.held, first, box.uidNext);
    CollectedAreDistinct(responses, first);
    SortAscends(got);
    SameMembers(SortByUid(got), got);
    forall m
      ensures m in SortByUid(got) <==> m in NewMail(box, since)
    {
      if m in got {
        AnswerHolds(box, first, responses, m);
      }
      if m in NewMail(box, since) {
        AnswerOmitsNothing(box, first, responses, m);
      }
    }
    AscendingIsUnique(SortByUid(got), NewMail(box, since));
  }

  lemma SortedStaysPut(messages: seq<Message>)
    requires Ascending(messages)
    ensures SortByUid(messages) == messages
  {
    SortAscends(messages);
    SameMembers(SortByUid(messages), messages);
    AscendingIsUnique(SortByUid(messages), messages);
  }

  /** With the cursor at the largest UID there is nothing above it and the code asks for nothing. */
  lemma NothingAboveLargestUid(box: Box)
    requires ValidBox(box)
    ensures NewMail(box, MAX_UINT32) == []
    ensures NewMail(box, LatestUid(box.uidNext)) == []
  {
  }

  // ----- the server, call by call

  class Server {
    var box: Box

    constructor (box: Box)
      ensures this.box == box
    {
      this.box := box;
    }

    /** FetchSince: the loop over the answer, remembering a missing body to the end. */
    method CollectAnswer(responses: seq<Response>, first: Uint32, transportOk: bool) returns (r: Result<seq<Message>>)
      ensures r == if transportOk then Collected(responses, first) else Err
    {
      var result: seq<Message> := [];
      var bodyMissing := false;
      for i := 0 to |responses|
        invariant bodyMissing <==> Collected(responses[..i], first).Err?
        invariant !bodyMissing ==> Collected(responses[..i], first) == Ok(result)
      {
        assert responses[..i + 1][..i] == responses[..i];
        var item := responses[i];
        if item.Nil? || item.uid < first {
          continue;
        }
        if item.body.None? {
          bodyMissing := true;
          continue;
        }
        result := result + [Message(item.uid, item.body.value)];
      }
      assert responses[..|responses|] == responses;
      if !transportOk || bodyMissing {
        return Err;
      }
      r := Ok(result);
    }

    /** Fetcher.Fetch: all new messages or an error and nothing. */
    method Fetch(knownValidity: Uint32, sinceUid: Uint32) returns (r: Result<FetchResult>)
      requires ValidBox(box)
      ensures r.Ok? ==> r.value == Fetched(box, knownValidity, sinceUid)
    {
      var connected: bool := *;
      if !connected {
        return Err;
      }
      if knownValidity == 0 || knownValidity != box.validity {
        return Ok(FetchResult(box.validity, LatestUid(box.uidNext), true, []));
      }
      if sinceUid == MAX_UINT32 {
        NothingAboveLargestUid(box);
        return Ok(FetchResult(box.validity, sinceUid, false, []));
      }
      var start := sinceUid + 1;
      var responses: seq<Response> := *;
      var transportOk: bool := *;
      if !Answers(box, start, responses) {
        return Err;
      }
      var collected := CollectAnswer(responses, start, transportOk);
      if collected.Err? {
        return Err;
      }
      AnswerIsNewMail(box, sinceUid, responses);
      r := Ok(FetchResult(box.validity, sinceUid, false, SortByUid(collected.value)));
    }

    /** Fetcher.MarkSeen: verifies UIDVALIDITY in the session that sets the flag; an answer may be lost. */
    method MarkSeen(expectedValidity: Uint32, uid: Uint32) returns (ok: bool)
      requires ValidBox(box)
      modifies this
      ensures ValidBox(box)
      ensures ok ==> old(box).validity == expectedValidity && box == Flagged(old(box), uid)
      ensures !ok ==> box == old(box) || (old(box).validity == expectedValidity && box == Flagged(old(box), uid))
      ensures ok && uid in old(box).held ==> uid in box.seen
      ensures box == old(box).(seen := box.seen) && forall u :: u != uid ==> (u in box.seen <==> u in old(box).seen)
    {
      var connected: bool := *;
      if !connected || box.validity != expectedValidity {
        return false;
      }
      var stored: bool := *;
      if stored {
        box := Flagged(box, uid);
      }
      ok := *;
      ok := ok && stored;
    }
  }

  /** A UID that is no longer held is ignored by the server (section 6.4.8 of RFC 3501). */
  function Flagged(box: Box, uid: Uint32): Box {
    if uid in box.held then box.(seen := box.seen + {uid}) else box
  }
}
