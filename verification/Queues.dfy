/** The message queue's data: a list that is pushed at the front and popped at the
    back, and one reply slot per message id. */
module Queues {

  datatype Status = NoError | WouldBlock | BadValue | InvalidOperation

  /** `ticket` is not in the source: it is the position of the message in the order
      of sends, so that proofs can tell apart two messages with equal contents. */
  datatype Message = Message(id: int, buffer: nat, ticket: nat)

  /** The reply id that makes a send asynchronous. */
  const NO_REPLY := -1

  function Reversed<T>(s: seq<T>): (r: seq<T>) {
    if s == [] then [] else Reversed(s[1..]) + [s[0]]
  }

  /** The messages of `s` that do not carry `id`, in their order. */
  function Without(s: seq<Message>, id: int): (r: seq<Message>) {
    if s == [] then []
    else Without(s[..|s| - 1], id) + if s[|s| - 1].id == id then [] else [s[|s| - 1]]
  }

  /** The messages of `s` that carry `id`, in their order. */
  function Matching(s: seq<Message>, id: int): (r: seq<Message>) {
    if s == [] then []
    else Matching(s[..|s| - 1], id) + if s[|s| - 1].id == id then [s[|s| - 1]] else []
  }

  lemma {:induction false} ReversedAppend<T>(s: seq<T>, x: T)
    ensures Reversed(s + [x]) == [x] + Reversed(s)
  {
    if s == [] {
    } else {
      ReversedAppend(s[1..], x);
      assert (s + [x])[1..] == s[1..] + [x];
    }
  }

  lemma {:induction false} WithoutPrepend(x: Message, s: seq<Message>, id: int)
    ensures Without([x] + s, id) == (if x.id == id then [] else [x]) + Without(s, id)
    ensures Matching([x] + s, id) == (if x.id == id then [x] else []) + Matching(s, id)
  {
    if s == [] {
      assert [x] + s == [x];
      assert Without([x], id) == Without([], id) + if x.id == id then [] else [x];
    } else {
      var front, last := s[..|s| - 1], s[|s| - 1];
      WithoutPrepend(x, front, id);
      var all := [x] + s;
      assert all[..|all| - 1] == [x] + front && all[|all| - 1] == last;
    }
  }

  /** Filtering the list front to back is filtering the receive order. */
  lemma {:induction false} ReversedWithout(s: seq<Message>, id: int)
    ensures Reversed(Without(s, id)) == Without(Reversed(s), id)
    ensures Reversed(Matching(s, id)) == Matching(Reversed(s), id)
  {
    if s == [] {
    } else {
      var n := |s| - 1;
      ReversedWithout(s[..n], id);
      assert s == s[..n] + [s[n]];
      ReversedAppend(s[..n], s[n]);
      ReversedAppend(Without(s[..n], id), s[n]);
      ReversedAppend(Matching(s[..n], id), s[n]);
      WithoutPrepend(s[n], Reversed(s[..n]), id);
      if s[n].id == id {
        assert Without(s, id) == Without(s[..n], id);
      } else {
        assert Matching(s, id) == Matching(s[..n], id);
      }
    }
  }

  class MessageQueue {
    var mList: seq<Message>
    const mReplyStatus: array<Status>

    /** The queued messages in the order `Receive` will return them. */
    ghost function Pending(): (r: seq<Message>)
      reads this
    {
      Reversed(mList)
    }

    constructor (numReply: nat)
      ensures fresh(mReplyStatus) && mReplyStatus.Length == numReply
      ensures Pending() == []
    {
      mList := [];
      mReplyStatus := new Status[numReply];
    }

    /** The argument checks and the critical section of `send`. The wait that follows
        it for a synchronous send is `CheckReply` of the protocol. */
    method Send(msg: Message, replyId: int) returns (status: Status)
      modifies this, mReplyStatus
      ensures status == if -1 <= replyId < mReplyStatus.Length then NoError else BadValue
      ensures status == BadValue ==> mList == old(mList) && mReplyStatus[..] == old(mReplyStatus[..])
      ensures status == NoError ==> Pending() == old(Pending()) + [msg]
      ensures status == NoError ==>
        mReplyStatus[..] == if replyId == NO_REPLY then old(mReplyStatus[..])
                            else old(mReplyStatus[..])[replyId := WouldBlock]
    {
      var notDefReplyId := replyId != NO_REPLY;
      if notDefReplyId && mReplyStatus.Length == 0 {
        return BadValue;
      }
      if replyId < -1 || replyId >= mReplyStatus.Length {
        return BadValue;
      }
      mList := [msg] + mList;
      if notDefReplyId {
        mReplyStatus[replyId] := WouldBlock;
      }
      status := NoError;
    }

    /** The critical section of `remove`: one pass that erases in place. */
    method RemoveMatching(id: int) returns (vect: seq<Message>)
      modifies this`mList
      ensures Pending() == Without(old(Pending()), id)
      ensures Reversed(vect) == Matching(old(Pending()), id)
    {
      vect := [];
      var it := 0;
      ghost var k := 0;
      while it < |mList|
        invariant it <= |mList| && k <= |old(mList)| && |mList| - it == |old(mList)| - k
        invariant mList[..it] == Without(old(mList)[..k], id)
        invariant mList[it..] == old(mList)[k..]
        invariant vect == Matching(old(mList)[..k], id)
        decreases |mList| - it
      {
        var msg := mList[it];
        assert msg == mList[it..][0] == old(mList)[k];
        assert old(mList)[..k + 1][..k] == old(mList)[..k];
        assert mList[it + 1..] == mList[it..][1..] == old(mList)[k + 1..];
        if msg.id == id {
          vect := vect + [msg];
          mList := mList[..it] + mList[it + 1..];
        } else {
          it := it + 1;
        }
        k := k + 1;
      }
      assert old(mList)[..k] == old(mList) && mList == mList[..it];
      ReversedWithout(old(mList), id);
    }

    /** `receive` once its wait has seen a non-empty list. */
    method Receive() returns (msg: Message)
      requires mList != []
      modifies this`mList
      ensures old(Pending()) == [msg] + Pending()
    {
      msg := mList[|mList| - 1];
      ReversedAppend(mList[..|mList| - 1], msg);
      assert mList == mList[..|mList| - 1] + [msg];
      mList := mList[..|mList| - 1];
    }

    /** `overrun` tells of a write behind the slots, which the guard does not stop for the one
        id `mNumReply`; what such a write does is not part of the model. */
    method Reply(replyId: int, status: Status) returns (overrun: bool)
      modifies mReplyStatus
      ensures overrun <==> replyId == mReplyStatus.Length
      ensures mReplyStatus[..] == if 0 <= replyId < mReplyStatus.Length
                                  then old(mReplyStatus[..])[replyId := status]
                                  else old(mReplyStatus[..])
    {
      overrun := false;
      if replyId < 0 || replyId > mReplyStatus.Length {
        return;
      }
      if replyId < mReplyStatus.Length {
        mReplyStatus[replyId] := status;
      } else {
        overrun := true;
      }
    }
  }

  /** The ids that pass the guard of `reply`. */
  predicate PassesGuard(replyId: int, numReply: nat) {
    !(replyId < 0 || replyId > numReply)
  }

  /** None of the ids that are answered passes the guard without having a slot, exactly when
      none of them is the number of slots. */
  lemma GuardIsEnoughIff(ids: set<int>, numReply: nat)
    ensures (forall id | id in ids && PassesGuard(id, numReply) :: id < numReply) <==> numReply !in ids
  {
    if numReply in ids {
      assert PassesGuard(numReply, numReply);
    }
  }
}
