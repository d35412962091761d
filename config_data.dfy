/**
  The device configuration record `dev_config`: network settings, options and
  the three user I/O masks, with the transfer to and from the network chip's
  `wiz_NetInfo` structure.
 */
module ConfigData {
  import opened CTypes
  import CString
  import Board

  /** The two `dhcp_mode` values of the network chip's driver. */
  const NetinfoStatic: int := 1
  const NetinfoDhcp: int := 2

  /** Firmware version 0.8.2. */
  const MajorVer: uint8 := 0
  const MinorVer: uint8 := 8
  const MaintenanceVer: uint8 := 2

  /** `sizeof(DevConfig)` of the packed record: 2 + 25 + 3 + 20 + 6 + 56 + 6 bytes. */
  const DevConfigSize: uint16 := 118

  /** The `user_io_info` masks: bit set = enabled, analog input, output. */
  datatype UserIoInfo = UserIoInfo(enable: bv16, ioType: bv16, direction: bv16)

  /** The network chip's `wiz_NetInfo`; `dhcp` holds whatever the caller stored in the enum. */
  datatype NetInfo = NetInfo(mac: seq<uint8>, ip: seq<uint8>, sn: seq<uint8>, gw: seq<uint8>,
                             dns: seq<uint8>, dhcp: int)
  {
    predicate Valid() {
      |mac| == 6 && |ip| == 4 && |sn| == 4 && |gw| == 4 && |dns| == 4
    }
  }

  function Zeros(n: nat): (r: seq<uint8>)
    ensures |r| == n && forall k :: 0 <= k < n ==> r[k] == 0
  {
    seq(n, _ => 0)
  }

  /** What a `set_DevConfig` / `get_DevConfig` round trip makes of a `wiz_NetInfo`. */
  function Normalised(net: NetInfo): (r: NetInfo)
    ensures r.dhcp == NetinfoStatic || r.dhcp == NetinfoDhcp
    ensures r.dhcp == NetinfoStatic <==> net.dhcp == NetinfoStatic
    ensures r.(dhcp := net.dhcp) == net
  {
    net.(dhcp := if net.dhcp == NetinfoStatic then NetinfoStatic else NetinfoDhcp)
  }

  /** The factory module name: the default device id, NUL-padded to 25 bytes. */
  function FactoryModuleName(): (r: seq<uint8>)
    ensures |r| == 25
    ensures CString.IsBytes(Board.DeviceIdDefault)
    ensures r[..|Board.DeviceIdDefault|] == CString.Bytes(Board.DeviceIdDefault)
    ensures forall k :: |Board.DeviceIdDefault| <= k < 25 ==> r[k] == 0
  {
    assert CString.IsBytes(Board.DeviceIdDefault) by {
      forall k | 0 <= k < |Board.DeviceIdDefault|
        ensures Board.DeviceIdDefault[k] as int < 256
      {
      }
    }
    var r := CString.Bytes(Board.DeviceIdDefault) + Zeros(25 - |Board.DeviceIdDefault|);
    assert r[..|Board.DeviceIdDefault|] == CString.Bytes(Board.DeviceIdDefault);
    r
  }

  class DevConfig {
    var packetSize: uint16
    var moduleName: seq<uint8>
    var fwVer: seq<uint8>
    var mac: seq<uint8>
    var localIp: seq<uint8>
    var gateway: seq<uint8>
    var subnet: seq<uint8>
    var localPort: uint16
    var remoteIp: seq<uint8>
    var remotePort: uint16
    var dhcpUse: uint8
    var dnsUse: uint8
    var dnsServerIp: seq<uint8>
    var dnsDomainName: seq<uint8>
    var userIo: UserIoInfo

    /** Every array field has its declared size. */
    predicate Valid()
      reads this
    {
      |moduleName| == 25 && |fwVer| == 3 && |mac| == 6 && |localIp| == 4 && |gateway| == 4
      && |subnet| == 4 && |remoteIp| == 4 && |dnsServerIp| == 4 && |dnsDomainName| == 50
    }

    /** The record as static storage starts out: all bytes zero. */
    constructor ()
      ensures Valid()
      ensures packetSize == 0 && moduleName == Zeros(25) && fwVer == Zeros(3) && mac == Zeros(6)
      ensures localIp == Zeros(4) && gateway == Zeros(4) && subnet == Zeros(4) && localPort == 0
      ensures remoteIp == Zeros(4) && remotePort == 0 && dhcpUse == 0 && dnsUse == 0
      ensures dnsServerIp == Zeros(4) && dnsDomainName == Zeros(50)
      ensures userIo == UserIoInfo(0, 0, 0)
    {
      packetSize := 0;
      moduleName := Zeros(25);
      fwVer := Zeros(3);
      mac := Zeros(6);
      localIp := Zeros(4);
      gateway := Zeros(4);
      subnet := Zeros(4);
      localPort := 0;
      remoteIp := Zeros(4);
      remotePort := 0;
      dhcpUse := 0;
      dnsUse := 0;
      dnsServerIp := Zeros(4);
      dnsDomainName := Zeros(50);
      userIo := UserIoInfo(0, 0, 0);
    }

    /** The `wiz_NetInfo` that `get_DevConfig` fills in from this record. */
    function NetInfoView(): (r: NetInfo)
      reads this
      requires Valid()
      ensures r.Valid()
      ensures r.dhcp == NetinfoDhcp <==> dhcpUse != 0
      ensures r.dhcp == NetinfoStatic <==> dhcpUse == 0
    {
      NetInfo(mac, localIp, subnet, gateway, dnsServerIp,
              if dhcpUse != 0 then NetinfoDhcp else NetinfoStatic)
    }

    /**
      Restores the factory settings: name, version, 192.168.11.5/24 via
      192.168.11.1 on port 5000, remote 192.168.11.113:5000, DHCP and DNS off
      with DNS server 8.8.8.8, all four pins enabled, A and B analog, every pin
      an input.  The MAC address is left as it was.
     */
    method SetFactoryValue()
      requires Valid()
      modifies this
      ensures Valid()
      ensures packetSize == DevConfigSize
      ensures moduleName == FactoryModuleName()
      ensures fwVer == [MajorVer, MinorVer, MaintenanceVer]
      ensures localIp == [192, 168, 11, 5] && gateway == [192, 168, 11, 1]
      ensures subnet == [255, 255, 255, 0] && localPort == 5000
      ensures remoteIp == [192, 168, 11, 113] && remotePort == 5000
      ensures dhcpUse == 0 && dnsUse == 0 && dnsServerIp == [8, 8, 8, 8]
      ensures dnsDomainName == Zeros(50)
      ensures userIo == UserIoInfo(Board.AllUserIo, Board.UserIoA | Board.UserIoB, !Board.AllUserIo)
      ensures mac == old(mac)
    {
      packetSize := DevConfigSize;
      moduleName := FactoryModuleName();
      fwVer := [MajorVer, MinorVer, MaintenanceVer];
      localIp := [192, 168, 11, 5];
      gateway := [192, 168, 11, 1];
      subnet := [255, 255, 255, 0];
      localPort := 5000;
      remoteIp := [192, 168, 11, 113];
      remotePort := 5000;
      dhcpUse := 0;
      dnsUse := 0;
      dnsServerIp := [8, 8, 8, 8];
      dnsDomainName := Zeros(50);
      userIo := UserIoInfo(Board.AllUserIo, Board.UserIoA | Board.UserIoB, !Board.AllUserIo);
    }

    /** Copies the chip's addresses into the record; any mode other than static means DHCP. */
    method SetDevConfig(net: NetInfo)
      requires Valid() && net.Valid()
      modifies this`mac, this`localIp, this`gateway, this`subnet, this`dnsServerIp, this`dhcpUse
      ensures Valid()
      ensures NetInfoView() == Normalised(net)
      ensures dhcpUse == (if net.dhcp == NetinfoStatic then 0 else 1)
    {
      mac := net.mac;
      localIp := net.ip;
      gateway := net.gw;
      subnet := net.sn;
      dnsServerIp := net.dns;
      if net.dhcp == NetinfoStatic {
        dhcpUse := 0;
      } else {
        dhcpUse := 1;
      }
    }

    /** Fills a `wiz_NetInfo` from the record. */
    method GetDevConfig() returns (net: NetInfo)
      requires Valid()
      ensures net == NetInfoView()
    {
      net := NetInfo(mac, localIp, subnet, gateway, dnsServerIp, NetinfoStatic);
      if dhcpUse != 0 {
        net := net.(dhcp := NetinfoDhcp);
      } else {
        net := net.(dhcp := NetinfoStatic);
      }
    }

    method SetDhcpMode()
      modifies this`dhcpUse
      ensures dhcpUse == 1
    {
      dhcpUse := 1;
    }

    method SetStaticMode()
      modifies this`dhcpUse
      ensures dhcpUse == 0
    {
      dhcpUse := 0;
    }

    /** Overwrites exactly the six MAC bytes. */
    method SetMac(newMac: seq<uint8>)
      requires Valid() && |newMac| == 6
      modifies this`mac
      ensures Valid() && mac == newMac
    {
      mac := newMac;
    }
  }

  /**
    The round trip the network setup relies on: storing a `wiz_NetInfo` and
    reading it back returns the same address bytes, and the mode collapses to
    static or DHCP.
   */
  method SetThenGet(cfg: DevConfig, net: NetInfo) returns (back: NetInfo)
    requires cfg.Valid() && net.Valid()
    modifies cfg
    ensures back.mac == net.mac && back.ip == net.ip && back.sn == net.sn
    ensures back.gw == net.gw && back.dns == net.dns
    ensures back.dhcp == NetinfoStatic <==> net.dhcp == NetinfoStatic
    ensures back.dhcp != NetinfoStatic ==> back.dhcp == NetinfoDhcp
  {
    cfg.SetDevConfig(net);
    back := cfg.GetDevConfig();
  }
}
