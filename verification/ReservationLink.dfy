/** The objects at one link: the admission controller and the signalling element that owns the slot table. */
module ReservationLink {
  import opened Reservation

  datatype Kind = REQUEST | ACCEPT | REJECT | CONFIRM | TEARDOWN

  class ParamAdc {
    const utilization: real
    const bandwidth: real
    var resvRate: real

    constructor (utilization: real, bandwidth: real)
      ensures resvRate == 0.0 && this.utilization == utilization && this.bandwidth == bandwidth
    {
      this.utilization, this.bandwidth := utilization, bandwidth;
      resvRate := 0.0;
    }

    method AdmitFlow(rate: real) returns (decide: bool)
      modifies this
      ensures decide <==> old(resvRate) + rate <= utilization * bandwidth
      ensures resvRate == if decide then old(resvRate) + rate else old(resvRate)
    {
      if resvRate + rate <= utilization * bandwidth {
        resvRate := resvRate + rate;
        return true;
      }
      return false;
    }

    method RejAction(rate: real)
      modifies this
      ensures resvRate == old(resvRate) - rate
    {
      resvRate := resvRate - rate;
    }

    method TeardownAction(rate: real)
      modifies this
      ensures resvRate == old(resvRate) - rate
    {
      resvRate := resvRate - rate;
    }
  }

  class SALink {
    const adc: ParamAdc
    const pending: array<int>
    var numfl: int

    ghost predicate Valid() {
      pending.Length == NFLOWS
    }

    ghost function Cap(): real {
      adc.utilization * adc.bandwidth
    }

    ghost function Abstract(): Link
      reads this, adc, pending
    {
      Link(adc.resvRate, numfl, pending[..])
    }

    constructor (adc: ParamAdc)
      ensures Valid() && this.adc == adc && fresh(pending)
      ensures numfl == -1 && pending[..] == seq(NFLOWS, k => FREE)
    {
      this.adc := adc;
      var slots := new int[NFLOWS](k => FREE);
      pending := slots;
      numfl := -1;
      new;
      assert pending[..] == seq(NFLOWS, k => FREE);
    }

    /** The first slot with this flow id; the length of the table stands for -1. */
    method Lookup(flow: int) returns (i: nat)
      ensures i == Slot(pending[..], flow)
    {
      i := 0;
      while i < pending.Length
        invariant i <= pending.Length
        invariant Slot(pending[..], flow) == i + Slot(pending[i..], flow)
      {
        if pending[i] == flow {
          return;
        }
        assert pending[i..][1..] == pending[i + 1..];
        i := i + 1;
      }
    }

    /** A signalling message goes by. It is passed on with its decision, unless the slot table overflows, where
        the simulation exits. */
    method Recv(kind: Kind, flow: nat, rate: real, decision: bool) returns (exits: bool, decision': bool)
      requires Valid()
      modifies this, adc, pending
      ensures kind.REQUEST? ==>
        var a := OnRequest(old(Abstract()), Cap(), flow, rate);
        && (exits <==> a.None?)
        && (!exits ==> Abstract() == a.value.link && decision' == (decision && a.value.admitted))
      ensures !kind.REQUEST? ==> !exits && decision' == decision
      ensures kind.CONFIRM? ==> Abstract() == OnConfirm(old(Abstract()), flow, rate, decision)
      ensures kind.TEARDOWN? ==> Abstract() == OnTeardown(old(Abstract()), rate)
      ensures kind.ACCEPT? || kind.REJECT? ==> Abstract() == old(Abstract())
    {
      exits, decision' := false, decision;
      match kind {
        case REQUEST =>
          var decide := adc.AdmitFlow(rate);
          decision' := decision && decide;
          if decide {
            var j := Lookup(FREE);
            if j == pending.Length {
              exits := true;
              return;
            }
            pending[j] := flow;
            numfl := numfl + 1;
          }
        case ACCEPT =>
        case REJECT =>
        case CONFIRM =>
          var j := Lookup(flow);
          if j != pending.Length {
            if !decision {
              adc.RejAction(rate);
              numfl := numfl - 1;
            }
            pending[j] := FREE;
          }
        case TEARDOWN =>
          adc.TeardownAction(rate);
          numfl := numfl - 1;
      }
    }
  }
}
