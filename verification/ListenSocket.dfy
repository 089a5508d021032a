/**
 The listening socket as it is stored: counters, and a linked list of accepted
 connections with a head and a tail pointer.  Every method is proved against the
 operation of the same name in `AcceptProtocol`.
 */
module ListenSockets {
  import opened Wrappers
  import opened AcceptProtocol

  class ClientSocket {
    const socket: Client
    var next: ClientSocket?
    var closing: bool

    constructor (socket: Client)
      ensures this.socket == socket && next == null && !closing
    {
      this.socket := socket;
      next := null;
      closing := false;
    }

    method Close()
      modifies this`closing
      ensures closing
    {
      closing := true;
    }
  }

  ghost function ClientAt(clients: seq<ClientSocket>, i: nat): ClientSocket? {
    if i < |clients| then clients[i] else null
  }

  /** Distinct connections, each pointing to the next, holding the given system sockets. */
  ghost predicate Queue(clients: seq<ClientSocket>, ids: seq<Client>)
    reads clients
  {
    var queue :=
      && |ids| == |clients|
      && (forall i, j :: 0 <= i < j < |clients| ==> clients[i] != clients[j])
      && (forall i {:trigger clients[i].next} :: 0 <= i < |clients| ==> clients[i].next == ClientAt(clients, i + 1))
      && (forall i :: 0 <= i < |clients| ==> clients[i].socket == ids[i] && !clients[i].closing);
    queue
  }

  lemma NotBehind(clients: seq<ClientSocket>, n: nat)
    requires n <= |clients| && forall i, j :: 0 <= i < j < |clients| ==> clients[i] != clients[j]
    ensures forall i :: 0 <= i < n ==> clients[i] !in clients[n..]
  {
  }

  class ListenSocket {
    var pendingAcceptCount: int
    var acceptedHead: ClientSocket?
    var acceptedTail: ClientSocket?
    var acceptedCount: int
    var closing: bool
    ghost var clients: seq<ClientSocket>
    ghost var ids: seq<Client>

    ghost predicate Valid()
      reads this, clients
    {
      && Queue(clients, ids)
      && acceptedHead == ClientAt(clients, 0)
      && acceptedTail == (if clients == [] then null else clients[|clients| - 1])
      && acceptedCount == |clients|
    }

    /** The socket as the protocol sees it. */
    ghost function View(): Socket
      reads this
    {
      Socket(pendingAcceptCount, ids, closing)
    }

    constructor ()
      ensures Valid() && View() == FRESH && clients == []
    {
      pendingAcceptCount, acceptedCount, closing := 0, 0, false;
      acceptedHead, acceptedTail := null, null;
      clients, ids := [], [];
    }

    method IssueAccept(accepting: bool) returns (ok: bool)
      requires Valid()
      modifies this`pendingAcceptCount
      ensures Valid() && ok == accepting
      ensures View() == AcceptProtocol.IssueAccept(old(View()), ok)
    {
      if !accepting {
        return false;
      }
      pendingAcceptCount := pendingAcceptCount + 1;
      return true;
    }

    /** Puts a connection at the end of the queue. */
    method Enqueue(client: ClientSocket)
      requires Valid() && client !in clients && client.next == null && !client.closing
      modifies this`acceptedHead, this`acceptedTail, this`acceptedCount, this`clients, this`ids, clients
      ensures Valid() && clients == old(clients) + [client] && ids == old(ids) + [client.socket]
    {
      ghost var n := |clients|;
      assert n > 0 ==> clients[n - 1].next == ClientAt(clients, n);
      if acceptedHead == null {
        acceptedHead := client;
        acceptedTail := client;
      } else {
        acceptedTail.next := client;
        acceptedTail := client;
      }
      acceptedCount := acceptedCount + 1;
      ghost var before := clients;
      clients, ids := clients + [client], ids + [client.socket];
      forall i | 0 <= i < |clients| ensures clients[i].next == ClientAt(clients, i + 1) {
        if i < n {
          assert clients[i] == before[i];
        }
      }
    }

    method AcceptComplete(client: Client, usable: bool)
      requires Valid()
      modifies this, clients
      ensures Valid()
      ensures View() == AcceptProtocol.AcceptComplete(old(View()), client, usable)
      ensures forall i :: 0 <= i < |clients| ==> clients[i] in old(clients) || fresh(clients[i])
    {
      if !closing && usable {
        var clientSocket := new ClientSocket(client);
        Enqueue(clientSocket);
      }
      pendingAcceptCount := pendingAcceptCount - 1;
    }

    method CanAccept() returns (can: bool)
      requires Valid()
      ensures can <==> View().accepted != []
    {
      can := acceptedHead != null;
    }

    /** Takes the first connection off the queue. */
    method Dequeue() returns (client: ClientSocket)
      requires Valid() && clients != []
      modifies this`acceptedHead, this`acceptedTail, this`acceptedCount, this`clients, this`ids, clients
      ensures Valid() && clients == old(clients)[1..] && ids == old(ids)[1..]
      ensures client == old(clients)[0] && client.socket == old(ids)[0] && client.next == null && !client.closing
    {
      client := acceptedHead;
      ghost var before := clients;
      assert before[0].next == ClientAt(before, 1);
      acceptedHead := acceptedHead.next;
      if acceptedHead == null {
        acceptedTail := null;
      }
      client.next := null;
      acceptedCount := acceptedCount - 1;
      clients, ids := clients[1..], ids[1..];
      forall i | 0 <= i < |clients| ensures clients[i].next == ClientAt(clients, i + 1) {
        assert before[i + 1].next == ClientAt(before, i + 2);
      }
      assert forall i :: 0 <= i < |clients| ==> clients[i] == before[i + 1];
    }

    method Accept(accepting: bool) returns (result: ClientSocket?)
      requires Valid()
      modifies this, clients
      ensures Valid()
      ensures View() == AcceptProtocol.Accept(old(View()), accepting).1
      ensures (if result == null then None else Some(result.socket)) == AcceptProtocol.Accept(old(View()), accepting).0
      ensures result == ClientAt(old(clients), 0)
      ensures clients == if old(clients) == [] then [] else old(clients)[1..]
      ensures result != null ==> result.next == null && !result.closing
    {
      result := null;
      if acceptedHead != null {
        result := Dequeue();
      }
      if !closing {
        var ok := IssueAccept(accepting);
      }
    }

    /** Takes one connection off the queue of a closing socket and closes it. */
    method DropFirst() returns (dropped: bool)
      requires Valid() && closing
      modifies this, clients
      ensures Valid() && closing && pendingAcceptCount == old(pendingAcceptCount)
      ensures dropped <==> old(clients) != []
      ensures dropped ==> clients == old(clients)[1..] && old(clients)[0].closing
    {
      var client := Accept(false);
      if client == null {
        return false;
      }
      client.Close();
      return true;
    }

    /** Closes every connection that nobody has taken. */
    method DoClose()
      requires Valid() && closing
      modifies this, clients
      ensures Valid() && View() == old(View()).(accepted := [])
      ensures forall i :: 0 <= i < |old(clients)| ==> old(clients)[i].closing
    {
      ghost var before, n := clients, 0;
      var more := CanAccept();
      while more
        invariant Valid() && closing && pendingAcceptCount == old(pendingAcceptCount)
        invariant n <= |before| && clients == before[n..]
        invariant forall i, j :: 0 <= i < j < |before| ==> before[i] != before[j]
        invariant more <==> clients != []
        invariant forall i :: 0 <= i < n ==> before[i].closing
        decreases |clients|
      {
        NotBehind(before, n);
        var dropped := DropFirst();
        if !dropped {
          break;
        }
        n := n + 1;
        more := CanAccept();
      }
    }

    /** Closing, once. */
    method Close()
      requires Valid()
      modifies this, clients
      ensures Valid() && View() == AcceptProtocol.Close(old(View()))
      ensures !old(closing) ==> forall i :: 0 <= i < |old(clients)| ==> old(clients)[i].closing
    {
      if !closing {
        closing := true;
        DoClose();
      }
    }

    method IsClosed() returns (closed: bool)
      ensures closed == AcceptProtocol.IsClosed(View())
    {
      closed := closing && !(pendingAcceptCount > 0);
    }
  }
}
