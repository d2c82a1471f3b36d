/** The components put together, and the main loop that gives them their turns. */
module Firmware {
  import opened Bytes
  import opened Sockets
  import opened ScpiModel
  import opened RidenScpi
  import opened VxiModel
  import opened VxiServer
  import opened RpcBindServer
  import opened MainLoop

  /** What the environment has in store for one pass of the main loop. */
  datatype Pass = Pass(
    rawIncoming: Client, rawScript: seq<ParserEvent>,
    udp: seq<byte>, tcp: Client,
    vxiIncoming: Client, vxiScript: seq<ParserEvent>,
    order: WebOrder)

  /** The same pass as actions of the step machine. */
  function Actions(p: Pass): seq<Action> {
    [ScpiTurn(p.rawIncoming, p.rawScript), BridgeTurn, RpcBindTurn(p.udp, p.tcp), VxiTurn(p.vxiIncoming, p.vxiScript),
     HttpTurn(p.order)]
  }

  class Main {
    const scpi: ScpiServer
    const vxi: Server
    const bind: BindServer

    ghost predicate Valid()
      reads bind, vxi, vxi.scpi, vxi.vxiPort, scpi
    {
      && vxi.scpi == scpi && bind.vxi == vxi
      && scpi.Valid() && vxi.Valid() && bind.Valid()
      && vxi.sendBuffer != bind.udpRead && vxi.sendBuffer != bind.udpSend
      && vxi.sendBuffer != bind.tcpRead && vxi.sendBuffer != bind.tcpSend
    }

    /** The state when it is the turn of the component at this place. */
    ghost function At(phase: Phase): Dongle
      requires Valid()
      reads bind, vxi, vxi.scpi, vxi.vxiPort, scpi, scpi.writeBuffer, scpi.inputBuffer, vxi.readBuffer,
            bind.udpRead, bind.tcpRead
    {
      Dongle(phase, scpi.View(), vxi.View(), bind.View())
    }

    /** The state between two passes. */
    ghost function View(): Dongle
      requires Valid()
      reads bind, vxi, vxi.scpi, vxi.vxiPort, scpi, scpi.writeBuffer, scpi.inputBuffer, vxi.readBuffer,
            bind.udpRead, bind.tcpRead
    {
      At(AtScpi)
    }

    /** setup(): everything is constructed, then the VXI server starts to listen. */
    constructor (first: word, last: word)
      ensures Valid() && Initially(View())
      ensures {View().vxi.port.start, View().vxi.port.end} == {first, last}
    {
      var s := new ScpiServer();
      var v := new Server(s, first, last);
      var b := new BindServer(v);
      v.Begin(false);
      scpi, vxi, bind := s, v, b;
    }

    method RawTurn(incoming: Client, script: seq<ParserEvent>)
      requires Valid() && LoopFits(scpi.View(), incoming, script)
      modifies scpi, scpi.writeBuffer, scpi.inputBuffer
      ensures Valid() && DongleOk(old(At(AtScpi))) && At(AtBridge) == Step(old(At(AtScpi)), ScpiTurn(incoming, script))
      ensures scpi.View() == ScpiModel.Loop(old(scpi.View()), incoming, script) && vxi.View() == old(vxi.View())
    {
      StepIsTurn(At(AtScpi));
      scpi.Loop(incoming, script);
    }

    method BindTurns(udp: seq<byte>, tcp: Client)
      requires Valid()
      modifies bind, bind.udpRead, bind.udpSend, bind.tcpRead, bind.tcpSend
      ensures Valid() && DongleOk(old(At(AtBind))) && At(AtVxi) == Step(old(At(AtBind)), RpcBindTurn(udp, tcp))
      ensures scpi.View() == old(scpi.View()) && vxi.View() == old(vxi.View())
    {
      StepIsTurn(At(AtBind));
      var _ := bind.Loop(udp, tcp);
    }

    method VxiTurns(incoming: Client, script: seq<ParserEvent>)
      requires Valid() && vxi.TurnFits(script)
      modifies scpi, scpi.writeBuffer, scpi.inputBuffer, vxi, vxi.vxiPort, vxi.readBuffer, vxi.sendBuffer
      ensures Valid() && DongleOk(old(At(AtVxi))) && At(AtHttp) == Step(old(At(AtVxi)), VxiTurn(incoming, script))
    {
      StepIsTurn(At(AtVxi));
      vxi.Loop(incoming, script);
    }

    method HttpTurns(order: WebOrder)
      requires Valid()
      modifies scpi, vxi
      ensures Valid() && DongleOk(old(At(AtHttp))) && At(AtScpi) == Step(old(At(AtHttp)), HttpTurn(order))
    {
      match order {
        case NoOrder =>
        case DropRawClient(ip) => scpi.DisconnectClient(ip);
        case DropVxiClient(ip) => vxi.DisconnectClient(ip);
      }
    }

    /** One pass of loop(): the fixed order of the components. The Modbus bridge does not touch this state. */
    method Loop(p: Pass)
      requires Valid() && LoopFits(scpi.View(), p.rawIncoming, p.rawScript)
      requires var s := ScpiModel.Loop(scpi.View(), p.rawIncoming, p.rawScript);
        Servable(vxi.View()) && (Serving(vxi.View()) ==>
          ServeFits(s, Incoming(vxi.View()).buf[4..], vxi.client.id, p.vxiScript))
      modifies scpi, scpi.writeBuffer, scpi.inputBuffer, vxi, vxi.vxiPort, vxi.readBuffer, vxi.sendBuffer,
               bind, bind.udpRead, bind.udpSend, bind.tcpRead, bind.tcpSend
      ensures Valid()
      ensures DongleOk(old(View())) && View() == After(old(View()), Actions(p))
    {
      FiveSteps(View(), Actions(p));
      RawTurn(p.rawIncoming, p.rawScript);
      StepIsTurn(At(AtBridge));
      BindTurns(p.udp, p.tcp);
      VxiTurns(p.vxiIncoming, p.vxiScript);
      HttpTurns(p.order);
    }
  }
}
