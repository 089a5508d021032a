/**
 A descriptor of the event handler: one object for a socket with a single port or for a
 listening socket with any number of ports, seen from outside as a value of `EpollSpec`.
 */
module Descriptors {
  import opened Folding
  import opened Ports
  import opened EpollSpec
  import opened DescriptorInfos

  class DescriptorInfoSingle {
    var port: Port
    var tokens: int
    var mask: Interest

    constructor ()
      ensures port == 0 && tokens == SINGLE_TOKEN_COUNT && mask == NOTHING
    {
      port, tokens, mask := 0, SINGLE_TOKEN_COUNT, NOTHING;
    }
  }

  lemma ValuesAfterPut<K, V>(table: map<K, V>, key: K, value: V)
    ensures forall v :: v in table[key := value].Values ==> v in table.Values || v == value
  {
  }

  lemma ValuesAfterRemove<K, V>(table: map<K, V>, key: K)
    ensures forall v :: v in (table - {key}).Values ==> v in table.Values
  {
  }

  class DescriptorInfo {
    const fd: Fd
    const single: DescriptorInfoSingle?
    const multiple: DescriptorInfoMultiple?
    /** What the descriptor is, as a value. */
    ghost var view: Descriptor
    /** The objects it is made of. */
    ghost var repr: set<object>

    /** The single port's fields are what the view says. */
    ghost predicate SingleOk()
      requires single != null
      reads this, single
    {
      view == Single(single.port, single.tokens, single.mask)
    }

    ghost predicate Consistent()
      reads this, repr
    {
      && this in repr
      && (single == null <==> multiple != null)
      && (single != null ==> single in repr && SingleOk())
      && (multiple != null ==>
            && multiple in repr && multiple.activeReaders in repr
            && (forall i :: 0 <= i < |multiple.activeReaders.nodes| ==> multiple.activeReaders.nodes[i] in repr)
            && multiple.tokensMap.Values <= repr
            && !multiple.disableTokens && multiple.Valid()
            && view == Multiple(multiple.listeners))
    }

    /** The objects are in order and make up the view; kept folded. */
    ghost predicate Valid()
      reads this, repr
    {
      this in repr && forall level: int {:trigger Look(level)} :: Look(level) && level == DESCRIPTOR_FOLD ==> Consistent()
    }

    constructor (fd: Fd, listening: bool)
      ensures Valid() && fresh(repr) && this.fd == fd && view == Fresh(listening)
    {
      this.fd := fd;
      view := Fresh(listening);
      if listening {
        var info := new DescriptorInfoMultiple(false);
        single, multiple := null, info;
        repr := {this, info, info.activeReaders};
      } else {
        var info := new DescriptorInfoSingle();
        single, multiple := info, null;
        repr := {this, info};
      }
    }

    /** The view follows the ports of a listening socket after one of its operations. */
    ghost method Follow()
      requires multiple != null && single == null && this in repr
      requires multiple in repr && multiple.activeReaders in repr && !multiple.disableTokens && multiple.Valid()
      modifies this`view, this`repr
      ensures Valid() && view == Multiple(multiple.listeners)
      ensures forall o :: o in repr ==>
                o in old(repr) || o in multiple.tokensMap.Values || o in multiple.activeReaders.nodes
    {
      repr := repr + multiple.tokensMap.Values + set n | n in multiple.activeReaders.nodes;
      view := Multiple(multiple.listeners);
    }

    method IsListeningSocket() returns (listening: bool)
      requires Valid()
      ensures listening <==> view.Multiple?
    {
      assert Look(DESCRIPTOR_FOLD);
      listening := multiple != null;
    }

    method Mask() returns (mask: Interest)
      requires Valid()
      ensures mask == EpollSpec.Mask(view)
    {
      assert Look(DESCRIPTOR_FOLD);
      if single != null {
        mask := if single.tokens <= 0 then NOTHING else single.mask;
      } else {
        var events := multiple.Mask();
        mask := if events == IN_EVENT then READING else NOTHING;
      }
    }

    method SetPortAndMask(port: Port, mask: Interest)
      requires Valid() && CommandAllowed(view, port, SetEventMask(mask))
      modifies repr
      ensures Valid() && view == WithMask(old(view), port, mask) && fresh(repr - old(repr))
    {
      assert Look(DESCRIPTOR_FOLD);
      if single != null {
        single.port, single.mask := port, mask;
        view := WithMask(view, port, mask);
      } else {
        ghost var table := multiple.tokensMap;
        multiple.SetPortAndMask(port, if mask == READING then IN_EVENT else 0);
        ValuesAfterPut(table, port, multiple.tokensMap[port]);
        Follow();
      }
    }

    method RemovePort(port: Port)
      requires Valid()
      modifies repr
      ensures Valid() && view == WithoutPort(old(view), port) && fresh(repr - old(repr))
    {
      assert Look(DESCRIPTOR_FOLD);
      if single != null {
        single.port, single.mask := 0, NOTHING;
        view := WithoutPort(view, port);
      } else {
        ghost var table := multiple.tokensMap;
        multiple.RemovePort(port);
        ValuesAfterRemove(table, port);
        Follow();
      }
    }

    /** The port that is to be told next; it pays a token. */
    method NextNotifyDartPort() returns (port: Port)
      requires Valid()
      modifies repr
      ensures Valid() && (port, view) == Notify(old(view)) && fresh(repr - old(repr))
    {
      assert Look(DESCRIPTOR_FOLD);
      if single != null {
        single.tokens := single.tokens - 1;
        port := single.port;
        view := Notify(view).1;
      } else {
        port := multiple.NextNotifyDartPort();
        Follow();
      }
    }

    /** Tells every port, in some order; each pays a token. */
    method NotifyAllDartPorts() returns (told: seq<Port>)
      requires Valid()
      modifies repr
      ensures Valid() && view == Broadcast(old(view)) && fresh(repr - old(repr))
      ensures Enumerates(told, PortsOf(old(view)))
    {
      assert Look(DESCRIPTOR_FOLD);
      if single != null {
        told := TellSingle();
      } else {
        told := TellMultiple();
      }
    }

    method TellSingle() returns (told: seq<Port>)
      requires Valid() && single != null
      modifies repr
      ensures Valid() && view == Broadcast(old(view)) && repr == old(repr)
      ensures Enumerates(told, PortsOf(old(view)))
    {
      assert Look(DESCRIPTOR_FOLD);
      told := if single.port != 0 then [single.port] else [];
      single.tokens := single.tokens - 1;
      view := Broadcast(view);
    }

    method TellMultiple() returns (told: seq<Port>)
      requires Valid() && multiple != null
      modifies repr
      ensures Valid() && view == Broadcast(old(view)) && fresh(repr - old(repr))
      ensures Enumerates(told, PortsOf(old(view)))
    {
      assert Look(DESCRIPTOR_FOLD);
      told := TellListeners();
      Follow();
    }

    /** The listeners pay; what the descriptor is made of is left as it was. */
    method TellListeners() returns (told: seq<Port>)
      requires multiple != null && multiple.Valid() && !multiple.disableTokens
      modifies multiple`listeners, multiple.activeReaders, multiple.activeReaders.nodes, multiple.tokensMap.Values
      ensures multiple.Valid() && Multiple(multiple.listeners) == Broadcast(Multiple(old(multiple.listeners)))
      ensures Enumerates(told, PortsOf(Multiple(old(multiple.listeners))))
      ensures forall i :: 0 <= i < |multiple.activeReaders.nodes| ==>
                multiple.activeReaders.nodes[i] in old(multiple.activeReaders.nodes)
    {
      told := multiple.NotifyAllDartPorts();
    }

    method ReturnTokens(port: Port, count: nat)
      requires Valid() && CommandAllowed(view, port, ReturnTokenCommand(count))
      modifies repr
      ensures Valid() && view == WithTokens(old(view), port, count) && fresh(repr - old(repr))
    {
      assert Look(DESCRIPTOR_FOLD);
      if single != null {
        single.tokens := single.tokens + count;
        view := WithTokens(view, port, count);
      } else {
        multiple.ReturnTokens(port, count);
        Follow();
      }
    }
  }
}
