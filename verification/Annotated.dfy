/** The acknowledgement messages as objects: Size, MarshalTo, Marshal and Unmarshal. */
module Annotated {
  import opened Common
  import opened Wire
  import opened WireIO
  import opened AnnotatedSpec

  type Outcome = Result<(), DecodeError>

  class Subscription {
    var id: int64
    var unrecognized: bytes

    constructor ()
      ensures View() == NO_SUBSCRIPTION
    {
      id, unrecognized := 0, [];
    }

    function View(): SubscriptionValue
      reads this
    {
      SubscriptionValue(id, unrecognized)
    }

    method Size() returns (n: nat)
      ensures n == |EncodeSubscription(View())|
    {
      n := NumberSize(id, 1);
      n := n + |unrecognized|;
    }

    method MarshalTo(buf: array<byte>, start: nat) returns (i: nat)
      requires start + |EncodeSubscription(View())| <= buf.Length
      modifies buf
      ensures i == start + |EncodeSubscription(View())|
      ensures buf[..] == Splice(old(buf[..]), start, EncodeSubscription(View()))
    {
      hide Splice, NumberImage;
      SpliceNext(buf[..], start, NumberImage(1, id), unrecognized);
      i := PutNumber(buf, start, 0x08, id, 1);
      i := PutBytes(buf, i, unrecognized);
    }

    method Unmarshal(d: bytes) returns (r: Outcome)
      modifies this
      ensures r.Err? ==> DecodeSubscription(old(View()), d) == Err(r.error)
      ensures r.Ok? ==> DecodeSubscription(old(View()), d) == Ok(View())
    {
      hide Decode, ReadField;
      var i := 0;
      while i < |d|
        invariant i <= |d| && DecodeSubscription(View(), d[i..]) == DecodeSubscription(old(View()), d)
      {
        DecodeStep(SUBSCRIPTION, PutSubscription, View(), d, i);
        var got :- DecodeField(SUBSCRIPTION, d, i);
        match got.0 {
          case NumberField(1, v) => id := ToInt64(v);
          case UnknownField(raw) => unrecognized := unrecognized + raw;
          case _ =>
        }
        i := got.1;
      }
      assert d[i..] == [];
      DecodeNothing(SUBSCRIPTION, PutSubscription, View());
      return Ok(());
    }
  }

  class AckRequest {
    var subscription: Subscription?
    var valueId: bytes
    var unrecognized: bytes

    constructor ()
      ensures View() == NO_ACK && subscription == null
    {
      subscription, valueId, unrecognized := null, [], [];
    }

    function View(): AckValue
      reads this, subscription
    {
      AckValue(if subscription == null then None else Some(subscription.View()), valueId, unrecognized)
    }

    method Size() returns (n: nat)
      requires |EncodeAck(View())| < TWO_63
      ensures n == |EncodeAck(View())|
    {
      hide EncodeSubscription, TextImage;
      n := 0;
      if subscription != null {
        var l := subscription.Size();
        n := PayloadSize(l);
      }
      var m := TextSize(valueId, 2);
      n := n + m + |unrecognized|;
    }

    method MarshalTo(buf: array<byte>, start: nat) returns (i: nat)
      requires start + |EncodeAck(View())| <= buf.Length && |EncodeAck(View())| < TWO_63
      modifies buf
      ensures i == start + |EncodeAck(View())|
      ensures buf[..] == Splice(old(buf[..]), start, EncodeAck(View()))
    {
      hide Splice, TextImage, EncodeAckSubscription;
      ghost var t := TextImage(2, valueId) + unrecognized;
      assert EncodeAck(View()) == EncodeAckSubscription(View()) + t;
      hide EncodeAck;
      SpliceNext(buf[..], start, EncodeAckSubscription(View()), t);
      i := PutSubscriptionField(buf, start);
      SpliceNext(buf[..], i, TextImage(2, valueId), unrecognized);
      i := PutText(buf, i, 0x12, valueId, 2);
      i := PutBytes(buf, i, unrecognized);
    }

    method PutSubscriptionField(buf: array<byte>, start: nat) returns (i: nat)
      requires |EncodeAckSubscription(View())| < TWO_63
      requires start + |EncodeAckSubscription(View())| <= buf.Length
      modifies buf
      ensures i == start + |EncodeAckSubscription(View())|
      ensures buf[..] == Splice(old(buf[..]), start, EncodeAckSubscription(View()))
    {
      hide Splice, PayloadImage, EncodeSubscription, Varint;
      SpliceNothing(buf[..], start);
      i := start;
      if subscription != null {
        ghost var text := EncodeSubscription(subscription.View());
        PayloadParts(1, text);
        SpliceNext(buf[..], start, [0x0a] + Varint(|text|), text);
        var size := subscription.Size();
        i := PutHeader(buf, start, 0x0a, size);
        i := subscription.MarshalTo(buf, i);
      }
    }

    method Marshal() returns (d: array<byte>)
      requires |EncodeAck(View())| < TWO_63
      ensures fresh(d) && d[..] == EncodeAck(View())
    {
      var size := Size();
      d := new byte[size];
      var n := MarshalTo(d, 0);
    }

    /** A Subscription field is decoded into the message's own subscription, made when missing. */
    method Unmarshal(d: bytes) returns (r: Outcome)
      modifies this, subscription
      ensures subscription == old(subscription) || fresh(subscription)
      ensures r.Err? ==> DecodeAck(old(View()), d) == Err(r.error)
      ensures r.Ok? ==> DecodeAck(old(View()), d) == Ok(View())
    {
      hide Decode, ReadField;
      var i := 0;
      while i < |d|
        invariant subscription == old(subscription) || fresh(subscription)
        invariant i <= |d| && DecodeAck(View(), d[i..]) == DecodeAck(old(View()), d)
      {
        DecodeStep(ACK, PutAck, View(), d, i);
        var got :- DecodeField(ACK, d, i);
        match got.0 {
          case TextField(1, text) =>
            if subscription == null { subscription := new Subscription(); }
            var _ :- subscription.Unmarshal(text);
          case TextField(2, text) => valueId := text;
          case UnknownField(raw) => unrecognized := unrecognized + raw;
          case _ =>
        }
        i := got.1;
      }
      assert d[i..] == [];
      DecodeNothing(ACK, PutAck, View());
      return Ok(());
    }
  }

  class AnnotatedValueSourceInput {
    var ids: seq<bytes>
    var inputName: bytes
    var unrecognized: bytes

    constructor ()
      ensures View() == NO_SOURCE
    {
      ids, inputName, unrecognized := [], [], [];
    }

    function View(): SourceValue
      reads this
    {
      SourceValue(ids, inputName, unrecognized)
    }

    method Size() returns (n: nat)
      requires |EncodeSource(View())| < TWO_63
      ensures n == |EncodeSource(View())|
    {
      hide TextImage;
      n := 0;
      for k := 0 to |ids|
        invariant n + |EncodeIds(ids[k..])| == |EncodeIds(ids)|
      {
        assert ids[k..][1..] == ids[k + 1..];
        var l := PayloadSize(|ids[k]|);
        n := n + l;
      }
      var m := TextSize(inputName, 2);
      n := n + m + |unrecognized|;
    }

    method MarshalTo(buf: array<byte>, start: nat) returns (i: nat)
      requires start + |EncodeSource(View())| <= buf.Length && |EncodeSource(View())| < TWO_63
      modifies buf
      ensures i == start + |EncodeSource(View())|
      ensures buf[..] == Splice(old(buf[..]), start, EncodeSource(View()))
    {
      hide Splice, TextImage, PayloadImage;
      ghost var t := TextImage(2, inputName) + unrecognized;
      SpliceNothing(buf[..], start);
      i := start;
      ghost var done: bytes := [];
      for k := 0 to |ids|
        invariant i == start + |done| && done + EncodeIds(ids[k..]) == EncodeIds(ids)
        invariant buf[..] == Splice(old(buf[..]), start, done)
      {
        assert ids[k..][1..] == ids[k + 1..];
        WriteNext(old(buf[..]), start, done, PayloadImage(1, ids[k]), EncodeIds(ids[k + 1..]));
        i := PutPayload(buf, i, 0x0a, ids[k], 1);
        done := done + PayloadImage(1, ids[k]);
      }
      assert ids[|ids|..] == [] && done + [] == done;
      SpliceNext(old(buf[..]), start, done, t);
      SpliceNext(buf[..], i, TextImage(2, inputName), unrecognized);
      i := PutText(buf, i, 0x12, inputName, 2);
      i := PutBytes(buf, i, unrecognized);
    }

    method Marshal() returns (d: array<byte>)
      requires |EncodeSource(View())| < TWO_63
      ensures fresh(d) && d[..] == EncodeSource(View())
    {
      var size := Size();
      d := new byte[size];
      var n := MarshalTo(d, 0);
    }

    method Unmarshal(d: bytes) returns (r: Outcome)
      modifies this
      ensures r.Err? ==> DecodeSource(old(View()), d) == Err(r.error)
      ensures r.Ok? ==> DecodeSource(old(View()), d) == Ok(View())
    {
      hide Decode, ReadField;
      var i := 0;
      while i < |d|
        invariant i <= |d| && DecodeSource(View(), d[i..]) == DecodeSource(old(View()), d)
      {
        DecodeStep(SOURCE, PutSource, View(), d, i);
        var got :- DecodeField(SOURCE, d, i);
        match got.0 {
          case TextField(1, text) => ids := ids + [text];
          case TextField(2, text) => inputName := text;
          case UnknownField(raw) => unrecognized := unrecognized + raw;
          case _ =>
        }
        i := got.1;
      }
      assert d[i..] == [];
      DecodeNothing(SOURCE, PutSource, View());
      return Ok(());
    }
  }
}
