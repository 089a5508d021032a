/**
 The queue of debugger commands itself: heap-allocated messages linked from the head
 to the tail.  Adding, draining and deleting are proved against the sequence of
 queued commands that the protocol works with.
 */
module DebuggerQueues {
  import opened DebuggerProtocol

  class DbgMessage {
    const command: Command
    var next: DbgMessage?

    constructor (command: Command)
      ensures this.command == command && next == null
    {
      this.command := command;
      next := null;
    }

    /** Whether the isolate is to resume after this command. */
    method HandleMessage() returns (resume: bool)
      ensures resume == command.resumes
    {
      resume := command.resumes;
    }
  }

  class DbgMsgQueue {
    var head: DbgMessage?
    var tail: DbgMessage?
    ghost var messages: seq<DbgMessage>

    ghost predicate Valid()
      reads this, messages
    {
      var consistent :=
        && head == (if messages == [] then null else messages[0])
        && tail == (if messages == [] then null else messages[|messages| - 1])
        && (forall i, j :: 0 <= i < j < |messages| ==> messages[i] != messages[j])
        && (forall i {:trigger messages[i].next} :: 0 <= i < |messages| ==>
              messages[i].next == if i + 1 < |messages| then messages[i + 1] else null);
      consistent
    }

    /** The queued commands, the oldest first. */
    ghost function Contents(): seq<Command>
      reads this
    {
      CommandsOf(messages)
    }

    constructor ()
      ensures Valid() && messages == [] && Contents() == []
    {
      head, tail := null, null;
      messages := [];
    }

    /** Queues a command; the isolate is notified only when the queue was empty. */
    method AddMessage(command: Command, length: int) returns (notify: bool)
      requires Valid()
      modifies this, messages
      ensures Valid()
      ensures Contents() == if 0 < length < MAX_INT32 then old(Contents()) + [command] else old(Contents())
      ensures notify <==> 0 < length < MAX_INT32 && old(Contents()) == []
    {
      notify := false;
      if 0 < length < MAX_INT32 {
        var msg := new DbgMessage(command);
        ghost var before := messages;
        if head == null {
          head := msg;
          tail := msg;
          messages := [msg];
          notify := true;
        } else {
          tail.next := msg;
          tail := msg;
          messages := messages + [msg];
          forall i | 0 <= i < |messages|
            ensures messages[i].next == if i + 1 < |messages| then messages[i + 1] else null
          {
            if i < |before| {
              assert old(before[i].next) == if i + 1 < |before| then before[i + 1] else null;
            }
          }
        }
        assert CommandsOf(messages) == CommandsOf(before) + [command];
      }
    }

    /** Takes the oldest message off the queue. */
    method TakeFirst() returns (msg: DbgMessage)
      requires Valid() && messages != []
      modifies this
      ensures Valid()
      ensures msg == old(messages)[0] && messages == old(messages)[1..]
    {
      msg := head;
      ghost var before := messages;
      assert before[0].next == if 1 < |before| then before[1] else null;
      head := head.next;
      if head == null {
        tail := null;
      }
      messages := before[1..];
      forall i | 0 <= i < |messages|
        ensures messages[i].next == if i + 1 < |messages| then messages[i + 1] else null
      {
        assert before[i + 1].next == if i + 2 < |before| then before[i + 2] else null;
      }
    }

    /**
     Handles queued commands in order, up to and including the first that resumes the
     isolate; the rest stays queued.
     */
    method HandlePendingMessages() returns (resume: bool, handled: seq<Command>)
      requires Valid()
      modifies this
      ensures Valid()
      ensures var n := DrainLength(old(Contents()));
              handled == old(Contents())[..n] && Contents() == old(Contents())[n..]
      ensures resume <==> DrainResumes(old(Contents()))
    {
      resume := false;
      handled := [];
      ghost var contents, k := Contents(), 0;
      while head != null && !resume
        invariant Valid()
        invariant k <= |old(messages)| && messages == old(messages)[k..]
        invariant handled == contents[..k]
        invariant forall i :: 0 <= i < k - 1 ==> !contents[i].resumes
        invariant resume <==> k > 0 && contents[k - 1].resumes
        decreases |messages|
      {
        var msg := TakeFirst();
        assert msg.command == contents[k];
        resume := msg.HandleMessage();
        handled := handled + [msg.command];
        k := k + 1;
      }
      DrainLengthIs(contents, k);
      assert Contents() == contents[k..];
    }

    /** The destructor: every message still queued is deleted, once. */
    method Destroy() returns (deleted: seq<DbgMessage>)
      requires Valid()
      modifies this
      ensures Valid() && messages == []
      ensures deleted == old(messages)
    {
      deleted := [];
      ghost var k := 0;
      while head != null
        invariant Valid()
        invariant k <= |old(messages)| && deleted == old(messages)[..k] && messages == old(messages)[k..]
        decreases |messages|
      {
        var msg := TakeFirst();
        deleted := deleted + [msg];
        k := k + 1;
      }
    }
  }

  ghost function CommandsOf(messages: seq<DbgMessage>): seq<Command> {
    seq(|messages|, i requires 0 <= i < |messages| => messages[i].command)
  }

  /** A prefix with no resume before its end, and nothing or a resume at it, is what a drain takes. */
  lemma {:induction false} DrainLengthIs(queue: seq<Command>, k: nat)
    requires k <= |queue| && forall i :: 0 <= i < k - 1 ==> !queue[i].resumes
    requires k == |queue| || (k > 0 && queue[k - 1].resumes)
    ensures DrainLength(queue) == k
  {
    if queue != [] && !queue[0].resumes {
      DrainLengthIs(queue[1..], k - 1);
    }
  }
}
