/** The control pipe as the object the endpoint-0 interrupts drive. */
module UsbDevice {
  import opened Words
  import opened Packets
  import C = ControlTransfer

  class ControlPipe {
    var setup: C.Setup
    var data: seq<byte>
    var ptr: nat
    var remaining: uint32
    var direction: C.Direction
    var zlp: bool
    var notify: bool
    var log: seq<C.Event>

    ghost function Abstract(): C.Transfer
      reads this
    {
      C.Transfer(setup, data, ptr, remaining, direction, zlp, notify, log)
    }

    ghost predicate Valid()
      reads this
    {
      Abstract().Valid()
    }

    constructor (setup: C.Setup)
      ensures Valid() && log == [] && remaining == 0 && !notify
    {
      this.setup := setup;
      data, ptr, remaining, direction, zlp, notify, log := [], 0, 0, C.HostToDevice, false, false, [];
    }

    method Write(packet: seq<byte>)
      modifies this`log
      ensures Abstract() == C.Log(old(Abstract()), C.Wrote(packet))
    {
      log := log + [C.Wrote(packet)];
    }

    method Read()
      modifies this`log
      ensures Abstract() == C.Log(old(Abstract()), C.AwaitsRead)
    {
      log := log + [C.AwaitsRead];
    }

    method Stall()
      modifies this`log
      ensures Abstract() == C.Log(old(Abstract()), C.Stalled)
    {
      log := log + [C.Stalled];
    }

    method RequestCompleted()
      modifies this`log, this`notify
      ensures Abstract() == C.Notify(old(Abstract()))
    {
      if notify {
        log := log + [C.Completed];
        notify := false;
      }
    }

    method ControlOut(packet: seq<byte>) returns (ok: bool)
      requires Valid()
      modifies this
      ensures Valid() && (Abstract(), ok) == C.ControlOut(old(Abstract()), packet)
    {
      if direction != C.HostToDevice {
        return false;
      }
      var packetSize := |packet|;
      if packetSize > remaining {
        return false;
      }
      ptr := ptr + packetSize;
      remaining := remaining - packetSize;
      if remaining == 0 {
        RequestCompleted();
        Write([]);
      } else {
        Read();
      }
      ok := true;
    }

    method ControlIn() returns (ok: bool)
      requires Valid()
      modifies this
      ensures Valid() && (Abstract(), ok) == C.ControlIn(old(Abstract()))
    {
      if remaining == 0 {
        if zlp {
          Write([]);
          zlp := false;
        }
        RequestCompleted();
        Read();
        return true;
      }
      if direction != C.DeviceToHost {
        return false;
      }
      var packetSize := remaining;
      if packetSize > MAX_PACKET {
        packetSize := MAX_PACKET;
      }
      Write(data[ptr..ptr + packetSize]);
      ptr := ptr + packetSize;
      remaining := remaining - packetSize;
      ok := true;
    }

    /** The checks of the handler's answer; what an IN transfer offers is cut to what was asked for. */
    method CheckAnswer() returns (ok: bool)
      requires Valid()
      modifies this`remaining
      ensures ok == C.Agreed(old(Abstract()))
      ensures Abstract() == if ok && setup.length > 0 && setup.direction == C.DeviceToHost
                            then old(Abstract()).(remaining := C.Limited(old(Abstract())).remaining)
                            else old(Abstract())
    {
      if setup.length > 0 {
        if setup.direction == C.DeviceToHost {
          if direction != C.DeviceToHost {
            return false;
          }
          if remaining > setup.length {
            remaining := setup.length;
          }
        } else {
          if direction != C.HostToDevice {
            return false;
          }
          if remaining != setup.length {
            return false;
          }
        }
      } else {
        if remaining != 0 {
          return false;
        }
      }
      ok := true;
    }

    method ControlSetup(packet: seq<byte>, answer: C.Answer) returns (ok: bool)
      requires Valid() && |packet| == C.SETUP_SIZE && answer.Valid()
      modifies this
      ensures Valid() && (Abstract(), ok) == C.ControlSetup(old(Abstract()), packet, answer)
    {
      hide C.DecodeSetup, C.ControlIn, C.Agreed;
      setup := C.DecodeSetup(packet);
      data, ptr, remaining, direction, zlp, notify := [], 0, 0, C.HostToDevice, false, false;
      if answer.Refused? {
        return false;
      }
      data, remaining, direction, notify := answer.data, answer.remaining, answer.direction, answer.notify;
      ok := CheckAnswer();
      if !ok {
        return;
      }
      if setup.length > 0 {
        if setup.direction == C.DeviceToHost {
          if setup.length > remaining {
            if remaining % MAX_PACKET == 0 {
              zlp := true;
            }
          }
          var _ := ControlIn();
        } else {
          Read();
        }
      } else {
        Write([]);
      }
    }

    /** A setup packet has arrived; a setup that is not accepted stalls the pipe. */
    method SetupCallback(packet: seq<byte>, answer: C.Answer)
      requires Valid() && |packet| == C.SETUP_SIZE && answer.Valid()
      modifies this
      ensures Valid()
      ensures Abstract() == C.StallUnless(C.ControlSetup(old(Abstract()), packet, answer))
    {
      hide C.ControlSetup;
      var ok := ControlSetup(packet, answer);
      if !ok {
        Stall();
      }
    }

    method OutCallback(packet: seq<byte>)
      requires Valid()
      modifies this
      ensures Valid() && Abstract() == C.Step(old(Abstract()), C.Out(packet))
    {
      hide C.ControlOut;
      var ok := ControlOut(packet);
      if !ok {
        Stall();
      }
    }

    method InCallback()
      requires Valid()
      modifies this
      ensures Valid() && Abstract() == C.Step(old(Abstract()), C.In)
    {
      hide C.ControlIn;
      var ok := ControlIn();
      if !ok {
        Stall();
      }
    }
  }
}
