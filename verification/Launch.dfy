// The QEMU command line of a lab host: one NIC after another, and a parser that
// reads them back.
module Launch {
  import opened Basics
  import opened Sorting
  import opened Client
  import opened Inventory
  import opened Models
  import opened Loader
  import opened LoadOrder
  import opened Emitter

  // ----- numbers --------------------------------------------------------------------

  function Digits(n: nat): (s: string)
    ensures s != "" && forall i :: 0 <= i < |s| ==> IsDigit(s[i])
  {
    (if n < 10 then "" else Digits(n / 10)) + [('0' as int + n % 10) as char]
  }

  // str(n)
  function Decimal(n: int): string { if n < 0 then "-" + Digits(-n) else Digits(n) }

  // ----- the seed server -----------------------------------------------------------------

  const GUESTFWD_IP := "10.0.2.100"
  const LOCAL_HOSTNAMES: set<string> := {"127.0.0.1", "localhost", "::1"}

  // The server's text with the parts urlparse finds in it.
  datatype SeedServer = SeedServer(text: string, scheme: string, hostname: Option<string>, port: Option<nat>)

  function HostOf(s: SeedServer): string { if Truthy(s.hostname) then s.hostname.value else "127.0.0.1" }

  function PortOf(s: SeedServer): nat {
    if s.port.Some? && s.port.value != 0 then s.port.value else if s.scheme == "https" then 443 else 80
  }

  predicate IsLocal(s: SeedServer) { HostOf(s) in LOCAL_HOSTNAMES }

  function GuestfwdSuffix(s: SeedServer): string {
    if !IsLocal(s) then ""
    else ",guestfwd=tcp:" + GUESTFWD_IP + ":" + Decimal(PortOf(s)) + "-tcp:" + HostOf(s) + ":" + Decimal(PortOf(s))
  }

  function HostfwdSuffix(sshPort: Option<int>): string {
    if sshPort.None? then "" else ",hostfwd=tcp::" + Decimal(sshPort.value) + "-:22"
  }

  // str.rstrip("/")
  function Unslashed(s: string): string {
    if s != "" && s[|s| - 1] == '/' then Unslashed(s[..|s| - 1]) else s
  }

  function SeedUrl(s: SeedServer, tag: string): string {
    (if IsLocal(s) then s.scheme + "://" + GUESTFWD_IP + ":" + Decimal(PortOf(s)) else Unslashed(s.text))
    + "/v1/render/" + tag + "/"
  }

  // The number a text of digits, with or without a sign, stands for.
  function DigitsValue(s: string): nat
    requires forall i :: 0 <= i < |s| ==> IsDigit(s[i])
  {
    if s == "" then 0
    else
      assert IsDigit(s[|s| - 1]);
      10 * DigitsValue(s[..|s| - 1]) + (s[|s| - 1] as int - '0' as int)
  }

  ghost predicate ReadsAs(s: string, n: int) {
    if n < 0 then s != "" && s[0] == '-' && (forall i :: 1 <= i < |s| ==> IsDigit(s[i])) && DigitsValue(s[1..]) == -n
    else s != "" && (forall i :: 0 <= i < |s| ==> IsDigit(s[i])) && DigitsValue(s) == n
  }

  lemma {:induction false} DigitsReadBack(n: nat)
    ensures DigitsValue(Digits(n)) == n
  {
    var s := Digits(n);
    assert s[..|s| - 1] == if n < 10 then "" else Digits(n / 10);
    if n >= 10 { DigitsReadBack(n / 10); }
  }

  // str(n) reads as n.
  lemma DecimalReadsBack(n: int)
    ensures ReadsAs(Decimal(n), n)
  {
    if n < 0 {
      DigitsReadBack(-n);
      assert Decimal(n)[1..] == Digits(-n);
    } else {
      DigitsReadBack(n);
    }
  }

  ghost predicate LoopbackName(host: string) { host == "127.0.0.1" || host == "localhost" || host == "::1" }

  // The forwarded endpoint is the one the guest's seed URL names: a server on
  // the loopback, or with no host, is always reachable through it, any other is
  // addressed as given. The port is the given one, or the scheme's.
  lemma GuestReachesSeed(s: SeedServer, tag: string) returns (endpoint: string, port: string)
    ensures ReadsAs(port, if s.port.Some? && s.port.value != 0 then s.port.value
                          else if s.scheme == "https" then 443 else 80)
    ensures endpoint == "10.0.2.100:" + port
    ensures var host := if s.hostname.Some? && s.hostname.value != "" then s.hostname.value else "127.0.0.1";
            if LoopbackName(host)
            then SeedUrl(s, tag) == s.scheme + "://" + endpoint + "/v1/render/" + tag + "/"
                 && GuestfwdSuffix(s) == ",guestfwd=tcp:" + endpoint + "-tcp:" + host + ":" + port
            else GuestfwdSuffix(s) == "" && SeedUrl(s, tag) == Unslashed(s.text) + "/v1/render/" + tag + "/"
  {
    hide Decimal, Unslashed, ReadsAs;
    port := Decimal(PortOf(s));
    DecimalReadsBack(PortOf(s));
    endpoint := "10.0.2.100:" + port;
    if IsLocal(s) {
      assert s.scheme + "://" + endpoint == s.scheme + "://" + GUESTFWD_IP + ":" + port;
      assert ",guestfwd=tcp:" + endpoint == ",guestfwd=tcp:" + GUESTFWD_IP + ":" + port;
    }
  }

  // Nothing but slashes goes from the end of the server's text.
  lemma {:induction false} UnslashedMeaning(s: string) returns (slashes: string)
    ensures s == Unslashed(s) + slashes && forall c :: c in slashes ==> c == '/'
    ensures Unslashed(s) != "" ==> Unslashed(s)[|Unslashed(s)| - 1] != '/'
  {
    slashes := "";
    if s != "" && s[|s| - 1] == '/' {
      slashes := UnslashedMeaning(s[..|s| - 1]);
      slashes := slashes + "/";
    }
  }

  // ----- the command line -------------------------------------------------------------------

  datatype Nic = Nic(id: string, mac: string, tap: string)

  datatype Machine = Machine(tag: string, seed: SeedServer, image: string, memory: int, vcpus: int,
                             sshPort: Option<int>)

  // Two options of one QEMU argument.
  function Comma(a: string, b: string): string { a + [','] + b }

  function TapOption(nic: Nic): string {
    Comma("tap", Comma("id=" + nic.id, Comma("ifname=" + nic.tap, Comma("script=no", "downscript=no"))))
  }
  function DeviceOption(nic: Nic): string { Comma("virtio-net-pci", Comma("netdev=" + nic.id, "mac=" + nic.mac)) }
  function SlirpOption(m: Machine): string { "user,id=mgmt0" + GuestfwdSuffix(m.seed) + HostfwdSuffix(m.sshPort) }
  const MGMT_DEVICE := "virtio-net-pci,netdev=mgmt0"

  function NicArgs(nic: Nic): seq<string> { ["-netdev", TapOption(nic), "-device", DeviceOption(nic)] }

  function AllNicArgs(nics: seq<Nic>): seq<string> {
    if nics == [] then [] else NicArgs(nics[0]) + AllNicArgs(nics[1..])
  }

  function Preamble(m: Machine): seq<string> {
    ["qemu-system-x86_64", "-enable-kvm", "-m", Decimal(m.memory), "-smp", Decimal(m.vcpus), "-cpu", "host",
     "-drive", "file=" + m.image + ",format=qcow2,if=virtio,snapshot=on",
     "-smbios", "type=1,serial=ds=nocloud-net;s=" + SeedUrl(m.seed, m.tag),
     "-smbios", "type=3,asset=" + m.tag]
  }

  function MgmtArgs(m: Machine): seq<string> { ["-netdev", SlirpOption(m), "-device", MGMT_DEVICE] }

  function Cmdline(m: Machine, nics: seq<Nic>, extra: seq<string>): seq<string> {
    Preamble(m) + MgmtArgs(m) + AllNicArgs(nics) + ["-display", "none"] + extra
  }

  // A rail as launch_host passes it on: name, MAC, tap.
  datatype Rail = Rail(name: string, mac: string, tap: string)

  function RailNic(r: Rail): Nic { Nic(r.name + "0", r.mac, r.tap) }

  function NicsOf(nsaMac: string, nsbMac: string, tapNsa: string, tapNsb: string, rails: seq<Rail>): seq<Nic> {
    [Nic("nsa0", nsaMac, tapNsa), Nic("nsb0", nsbMac, tapNsb)] + Map(RailNic, rails)
  }

  // The options of one NIC, and of the management NIC, as QEMU reads them.
  lemma NicOptions(nic: Nic, m: Machine)
    ensures TapOption(nic) == "tap,id=" + nic.id + ",ifname=" + nic.tap + ",script=no,downscript=no"
    ensures DeviceOption(nic) == "virtio-net-pci,netdev=" + nic.id + ",mac=" + nic.mac
    ensures NicArgs(nic) == ["-netdev", TapOption(nic), "-device", DeviceOption(nic)]
    ensures MgmtArgs(m) == ["-netdev", SlirpOption(m), "-device", "virtio-net-pci,netdev=mgmt0"]
  {
    hide SlirpOption;
    assert "tap" + [','] + "id=" == "tap,id=" && [','] + "ifname=" == ",ifname=";
    assert [','] + ("script=no" + [','] + "downscript=no") == ",script=no,downscript=no";
    assert TapOption(nic) == ("tap" + [','] + "id=") + nic.id + ([','] + "ifname=") + nic.tap
                             + ([','] + ("script=no" + [','] + "downscript=no"));
    assert "virtio-net-pci" + [','] + "netdev=" == "virtio-net-pci,netdev=" && [','] + "mac=" == ",mac=";
    assert DeviceOption(nic) == ("virtio-net-pci" + [','] + "netdev=") + nic.id + ([','] + "mac=") + nic.mac;
  }

  // The word after the first occurrence of the flag.
  function FirstAfter(cmd: seq<string>, flag: string): Option<string> {
    if |cmd| < 2 then None else if cmd[0] == flag then Some(cmd[1]) else FirstAfter(cmd[1..], flag)
  }

  lemma {:induction false} FirstAfterAt(cmd: seq<string>, flag: string, k: nat)
    requires k + 1 < |cmd| && cmd[k] == flag && forall j :: 0 <= j < k ==> cmd[j] != flag
    ensures FirstAfter(cmd, flag) == Some(cmd[k + 1])
  {
    if k > 0 { FirstAfterAt(cmd[1..], flag, k - 1); }
  }

  lemma NoNumberIsFlag(n: int, flag: string)
    requires |flag| > 1 && flag[0] == '-' && !IsDigit(flag[1])
    ensures Decimal(n) != flag
  {
  }

  lemma PreambleWords(m: Machine)
    ensures var p := Preamble(m);
            && |p| == 14 && p[2] == "-m" && p[4] == "-smp" && p[6] == "-cpu" && p[8] == "-drive" && p[10] == "-smbios"
            && "-m" !in p[..2] && "-smp" !in p[..4] && "-cpu" !in p[..6] && "-drive" !in p[..8] && "-smbios" !in p[..10]
  {
    NoNumberIsFlag(m.memory, "-smp");
    NoNumberIsFlag(m.memory, "-cpu");
    NoNumberIsFlag(m.memory, "-drive");
    NoNumberIsFlag(m.memory, "-smbios");
    NoNumberIsFlag(m.vcpus, "-cpu");
    NoNumberIsFlag(m.vcpus, "-drive");
    NoNumberIsFlag(m.vcpus, "-smbios");
    hide Decimal, SeedUrl;
  }

  lemma OptionOf(m: Machine, nics: seq<Nic>, extra: seq<string>, k: nat)
    requires k + 1 < |Preamble(m)| && Preamble(m)[k] !in Preamble(m)[..k]
    ensures FirstAfter(Cmdline(m, nics, extra), Preamble(m)[k]) == Some(Preamble(m)[k + 1])
  {
    hide Preamble, MgmtArgs, AllNicArgs;
    var p, cmd := Preamble(m), Cmdline(m, nics, extra);
    forall j | 0 <= j < k ensures cmd[j] != p[k] { assert p[..k][j] == cmd[j]; }
    FirstAfterAt(cmd, p[k], k);
  }

  lemma CmdlineEnds(m: Machine, nics: seq<Nic>, extra: seq<string>)
    ensures var cmd := Cmdline(m, nics, extra);
            && |cmd| >= 16 + |extra| && cmd[..14] == Preamble(m)
            && cmd[|cmd| - |extra| - 2..] == ["-display", "none"] + extra
  {
    hide Preamble, MgmtArgs, AllNicArgs;
    PreambleWords(m);
    var cmd := Cmdline(m, nics, extra);
    assert cmd == Preamble(m) + MgmtArgs(m) + AllNicArgs(nics) + (["-display", "none"] + extra);
  }

  // What the machine is told, option by option: its memory, its processors, the
  // image as a snapshot, the seed URL as the serial number, the asset tag.
  lemma MachineOptions(m: Machine, nics: seq<Nic>, extra: seq<string>)
    ensures var cmd := Cmdline(m, nics, extra);
            && |cmd| >= 16 + |extra| && cmd[..2] == ["qemu-system-x86_64", "-enable-kvm"]
            && FirstAfter(cmd, "-m").Some? && ReadsAs(FirstAfter(cmd, "-m").value, m.memory)
            && FirstAfter(cmd, "-smp").Some? && ReadsAs(FirstAfter(cmd, "-smp").value, m.vcpus)
            && FirstAfter(cmd, "-cpu") == Some("host")
            && FirstAfter(cmd, "-drive") == Some("file=" + m.image + ",format=qcow2,if=virtio,snapshot=on")
            && FirstAfter(cmd, "-smbios") == Some("type=1,serial=ds=nocloud-net;s=" + SeedUrl(m.seed, m.tag))
            && cmd[12..14] == ["-smbios", "type=3,asset=" + m.tag]
            && cmd[|cmd| - |extra| - 2..] == ["-display", "none"] + extra
  {
    PreambleWords(m);
    DecimalReadsBack(m.memory);
    DecimalReadsBack(m.vcpus);
    CmdlineEnds(m, nics, extra);
    hide Decimal, SeedUrl, ReadsAs, FirstAfter, Cmdline;
    OptionOf(m, nics, extra, 2);
    OptionOf(m, nics, extra, 4);
    OptionOf(m, nics, extra, 6);
    OptionOf(m, nics, extra, 8);
    OptionOf(m, nics, extra, 10);
    var cmd := Cmdline(m, nics, extra);
    assert cmd[..2] == cmd[..14][..2] && cmd[12..14] == cmd[..14][12..14];
  }

  // The management NIC forwards SSH when a port is given.
  lemma SshForward(m: Machine)
    ensures m.sshPort.None? ==> SlirpOption(m) == "user,id=mgmt0" + GuestfwdSuffix(m.seed)
    ensures m.sshPort.Some? ==>
              exists port :: ReadsAs(port, m.sshPort.value)
                && SlirpOption(m) == "user,id=mgmt0" + GuestfwdSuffix(m.seed) + ",hostfwd=tcp::" + port + "-:22"
  {
    hide GuestfwdSuffix, Decimal, ReadsAs;
    if m.sshPort.Some? {
      var port := Decimal(m.sshPort.value);
      DecimalReadsBack(m.sshPort.value);
      assert SlirpOption(m) == "user,id=mgmt0" + GuestfwdSuffix(m.seed) + ",hostfwd=tcp::" + port + "-:22";
    }
  }

  lemma {:induction false} AllNicArgsSnoc(nics: seq<Nic>, n: Nic)
    ensures AllNicArgs(nics + [n]) == AllNicArgs(nics) + NicArgs(n)
  {
    if nics == [] {
      assert [n][1..] == [];
    } else {
      assert (nics + [n])[1..] == nics[1..] + [n];
      AllNicArgsSnoc(nics[1..], n);
    }
  }

  lemma OneNicArgs(n: Nic)
    ensures AllNicArgs([n]) == NicArgs(n)
  {
  }

  // build_cmdline
  method BuildCmdline(m: Machine, nsaMac: string, nsbMac: string, tapNsa: string, tapNsb: string,
                      rails: seq<Rail>, extra: seq<string>) returns (cmd: seq<string>)
    ensures cmd == Cmdline(m, NicsOf(nsaMac, nsbMac, tapNsa, tapNsb, rails), extra)
  {
    hide Preamble, TapOption, DeviceOption, MgmtArgs, AllNicArgs;
    ghost var nics := NicsOf(nsaMac, nsbMac, tapNsa, tapNsb, rails);
    var nsa, nsb := Nic("nsa0", nsaMac, tapNsa), Nic("nsb0", nsbMac, tapNsb);
    cmd := Preamble(m) + MgmtArgs(m) + (NicArgs(nsa) + NicArgs(nsb));
    assert AllNicArgs(nics[..2]) == NicArgs(nsa) + NicArgs(nsb) by {
      assert nics[..2] == [nsa] + [nsb];
      AllNicArgsSnoc([nsa], nsb);
      OneNicArgs(nsa);
    }
    var k := 0;
    while k < |rails|
      invariant 0 <= k <= |rails|
      invariant cmd == Preamble(m) + MgmtArgs(m) + AllNicArgs(nics[..2 + k])
    {
      var id := rails[k].name + "0";
      var nic := Nic(id, rails[k].mac, rails[k].tap);
      assert nics[..2 + k + 1] == nics[..2 + k] + [nic];
      AllNicArgsSnoc(nics[..2 + k], nic);
      cmd := cmd + ["-netdev", TapOption(nic), "-device", DeviceOption(nic)];
      k := k + 1;
    }
    assert nics[..2 + k] == nics;
    cmd := cmd + ["-display", "none"];
    cmd := cmd + extra;
  }

  // ----- reading it back ------------------------------------------------------------------------

  function After(s: string, prefix: string): Option<string> {
    if StartsWith(s, prefix) then Some(s[|prefix|..]) else None
  }

  // id=... of a -netdev option
  function NetdevId(option: string): Option<string> {
    var p := Split(option, ',');
    if |p| >= 2 then After(p[1], "id=") else None
  }

  // netdev=... of a -device option
  function DeviceId(option: string): Option<string> {
    var p := Split(option, ',');
    if |p| >= 2 then After(p[1], "netdev=") else None
  }

  function TapOf(option: string): Option<string> {
    var p := Split(option, ',');
    if |p| == 5 && p[0] == "tap" && p[3..] == ["script=no", "downscript=no"] then After(p[2], "ifname=") else None
  }

  function MacOf(option: string): Option<string> {
    var p := Split(option, ',');
    if |p| == 3 && p[0] == "virtio-net-pci" then After(p[2], "mac=") else None
  }

  // A -netdev option and the -device option right after it.
  datatype Pair = Pair(netdev: string, device: string)

  function Pairs(cmd: seq<string>): seq<Pair> {
    if |cmd| < 4 then []
    else if cmd[0] == "-netdev" && cmd[2] == "-device" then [Pair(cmd[1], cmd[3])] + Pairs(cmd[4..])
    else Pairs(cmd[1..])
  }

  // The NIC a pair describes, if it is a tap with a MAC on a device of its own.
  function NicOf(p: Pair): Option<Nic> {
    if NetdevId(p.netdev).Some? && DeviceId(p.device) == NetdevId(p.netdev)
       && TapOf(p.netdev).Some? && MacOf(p.device).Some?
    then Some(Nic(NetdevId(p.netdev).value, MacOf(p.device).value, TapOf(p.netdev).value))
    else None
  }

  function NicsIn(pairs: seq<Pair>): seq<Nic> {
    if pairs == [] then []
    else (if NicOf(pairs[0]).Some? then [NicOf(pairs[0]).value] else []) + NicsIn(pairs[1..])
  }

  function ParseNics(cmd: seq<string>): seq<Nic> { NicsIn(Pairs(cmd)) }

  // ----- one NIC ---------------------------------------------------------------------------------

  lemma CommaFirst(a: string, b: string)
    requires ',' !in a
    ensures Split(Comma(a, b), ',') == [a] + Split(b, ',')
  {
    SplitFirst(a, ',', b);
  }

  lemma TapSplits(nic: Nic)
    requires ',' !in nic.id
    ensures Split(TapOption(nic), ',') ==
            ["tap", "id=" + nic.id] + Split("ifname=" + nic.tap, ',') + ["script=no", "downscript=no"]
  {
    hide Split, Comma;
    var id, tail := "id=" + nic.id, Comma("script=no", "downscript=no");
    var tap := "ifname=" + nic.tap;
    SplitPlain("downscript=no", ',');
    CommaFirst("script=no", "downscript=no");
    CommaSplits(tap, tail);
    CommaFirst(id, Comma(tap, tail));
    CommaFirst("tap", Comma(id, Comma(tap, tail)));
    assert ["tap"] + ([id] + (Split(tap, ',') + ["script=no", "downscript=no"])) ==
           ["tap", id] + Split(tap, ',') + ["script=no", "downscript=no"];
  }

  lemma CommaSplits(a: string, b: string)
    ensures Split(Comma(a, b), ',') == Split(a, ',') + Split(b, ',')
  {
    SplitConcat(a, ',', b);
  }

  lemma DeviceSplits(nic: Nic)
    requires ',' !in nic.id
    ensures Split(DeviceOption(nic), ',') == ["virtio-net-pci", "netdev=" + nic.id] + Split("mac=" + nic.mac, ',')
  {
    hide Split, Comma;
    CommaFirst("netdev=" + nic.id, "mac=" + nic.mac);
    CommaFirst("virtio-net-pci", Comma("netdev=" + nic.id, "mac=" + nic.mac));
  }

  // A NIC reads back as itself exactly when its tap name and MAC hold no comma.
  lemma NicRoundTrip(nic: Nic)
    requires ',' !in nic.id
    ensures NetdevId(TapOption(nic)) == Some(nic.id) == DeviceId(DeviceOption(nic))
    ensures NicOf(Pair(TapOption(nic), DeviceOption(nic))) ==
            if ',' !in nic.tap && ',' !in nic.mac then Some(nic) else None
  {
    hide Split, TapOption, DeviceOption;
    TapSplits(nic);
    DeviceSplits(nic);
    SplitMany("ifname=" + nic.tap, ',');
    SplitMany("mac=" + nic.mac, ',');
    assert ',' in "ifname=" + nic.tap <==> ',' in nic.tap;
    assert ',' in "mac=" + nic.mac <==> ',' in nic.mac;
    if ',' !in nic.tap { SplitPlain("ifname=" + nic.tap, ','); }
    if ',' !in nic.mac { SplitPlain("mac=" + nic.mac, ','); }
    assert ("id=" + nic.id)[3..] == nic.id && ("netdev=" + nic.id)[7..] == nic.id;
    assert ("ifname=" + nic.tap)[7..] == nic.tap && ("mac=" + nic.mac)[4..] == nic.mac;
  }

  lemma SlirpSplits(opts: string)
    requires opts == "" || opts[0] == ','
    ensures var p := Split(Comma("user", "id=mgmt0" + opts), ',');
            |p| >= 2 && p[0] == "user" && p[1] == "id=mgmt0"
  {
    hide Split, Comma;
    var own := "id=mgmt0";
    CommaFirst("user", own + opts);
    if opts == "" {
      assert own + opts == own;
      SplitPlain(own, ',');
    } else {
      AfterComma(own, opts);
      CommaFirst(own, opts[1..]);
    }
  }

  lemma AfterComma(a: string, opts: string)
    requires opts != "" && opts[0] == ','
    ensures a + opts == Comma(a, opts[1..])
  {
  }

  lemma SlirpIs(m: Machine) returns (opts: string)
    ensures SlirpOption(m) == Comma("user", "id=mgmt0" + opts) && (opts == "" || opts[0] == ',')
  {
    hide Decimal, HostOf, PortOf, IsLocal;
    var g, h := GuestfwdSuffix(m.seed), HostfwdSuffix(m.sshPort);
    assert g == "" || g[0] == ',';
    assert h == "" || h[0] == ',';
    opts := g + h;
    assert "user,id=mgmt0" == "user" + [','] + "id=mgmt0";
    assert SlirpOption(m) == "user" + [','] + ("id=mgmt0" + opts);
  }

  // The management NIC has an id, but no tap.
  lemma MgmtPair(m: Machine)
    ensures NetdevId(SlirpOption(m)) == Some("mgmt0") == DeviceId(MGMT_DEVICE)
    ensures NicOf(Pair(SlirpOption(m), MGMT_DEVICE)).None?
  {
    hide Split, SlirpOption;
    var opts := SlirpIs(m);
    SlirpSplits(opts);
    MgmtDeviceSplits();
    assert "id=mgmt0"[3..] == "mgmt0" && "netdev=mgmt0"[7..] == "mgmt0";
  }

  lemma MgmtDeviceSplits()
    ensures Split(MGMT_DEVICE, ',') == ["virtio-net-pci", "netdev=mgmt0"]
  {
    hide Split;
    assert MGMT_DEVICE == Comma("virtio-net-pci", "netdev=mgmt0");
    CommaFirst("virtio-net-pci", "netdev=mgmt0");
    SplitPlain("netdev=mgmt0", ',');
  }

  // ----- the whole command line ----------------------------------------------------------------------

  predicate IsFlag(s: string) { s == "-netdev" || s == "-device" }

  lemma {:induction false} SkipWords(words: seq<string>, rest: seq<string>)
    requires forall i :: 0 <= i < |words| ==> !IsFlag(words[i])
    ensures Pairs(words + rest) == Pairs(rest)
  {
    if words == [] {
      assert words + rest == rest;
    } else {
      assert (words + rest)[1..] == words[1..] + rest;
      SkipWords(words[1..], rest);
      if |words + rest| < 4 { NoPairs(rest); }
    }
  }

  lemma NoPairs(cmd: seq<string>)
    requires |cmd| < 4
    ensures Pairs(cmd) == []
  {
  }

  lemma OptionsAreNoFlags(nic: Nic)
    ensures !IsFlag(TapOption(nic)) && !IsFlag(DeviceOption(nic))
  {
  }

  lemma PreambleHasNoFlags(m: Machine)
    ensures forall i :: 0 <= i < |Preamble(m)| ==> !IsFlag(Preamble(m)[i])
  {
    hide Decimal, SeedUrl;
    NumbersAreNoFlags(m.memory);
    NumbersAreNoFlags(m.vcpus);
    FixedWords();
    assert ("file=" + m.image + ",format=qcow2,if=virtio,snapshot=on")[0] == 'f';
    assert ("type=1,serial=ds=nocloud-net;s=" + SeedUrl(m.seed, m.tag))[0] == 't';
    assert ("type=3,asset=" + m.tag)[0] == 't';
    assert "-netdev"[0] == '-' && "-device"[0] == '-';
  }

  lemma FixedWords()
    ensures !IsFlag("qemu-system-x86_64") && !IsFlag("-enable-kvm") && !IsFlag("-m")
            && !IsFlag("-smp") && !IsFlag("-cpu")
    ensures !IsFlag("host") && !IsFlag("-drive") && !IsFlag("-smbios") && !IsFlag("-display") && !IsFlag("none")
  {
  }

  lemma NumbersAreNoFlags(n: int)
    ensures !IsFlag(Decimal(n))
  {
    assert "-netdev"[0] == '-' && "-netdev"[1] == 'n' && "-device"[0] == '-' && "-device"[1] == 'd';
    if n < 0 { assert Decimal(n)[1] == Digits(-n)[0]; }
  }

  function NicPair(nic: Nic): Pair { Pair(TapOption(nic), DeviceOption(nic)) }

  lemma OnePair(netdev: string, device: string, rest: seq<string>)
    ensures Pairs(["-netdev", netdev, "-device", device] + rest) == [Pair(netdev, device)] + Pairs(rest)
  {
  }

  lemma {:induction false} NicPairs(nics: seq<Nic>, rest: seq<string>)
    ensures Pairs(AllNicArgs(nics) + rest) == Map(NicPair, nics) + Pairs(rest)
  {
    hide TapOption, DeviceOption, Pairs;
    if nics == [] {
      assert AllNicArgs(nics) + rest == rest;
    } else {
      var cmd := AllNicArgs(nics) + rest;
      assert cmd == NicArgs(nics[0]) + (AllNicArgs(nics[1..]) + rest);
      OnePair(TapOption(nics[0]), DeviceOption(nics[0]), AllNicArgs(nics[1..]) + rest);
      NicPairs(nics[1..], rest);
    }
  }

  lemma Regroup(a: seq<string>, b: seq<string>, c: seq<string>, d: seq<string>)
    ensures a + b + c + d + [] == a + (b + (c + d))
  {
  }

  // The -netdev options, each right before its -device option.
  lemma PairsOfCmdline(m: Machine, nics: seq<Nic>)
    ensures Pairs(Cmdline(m, nics, [])) == [Pair(SlirpOption(m), MGMT_DEVICE)] + Map(NicPair, nics)
  {
    hide Preamble, SlirpOption, IsFlag, AllNicArgs, Pairs, NicPair, Map;
    var tail := ["-display", "none"];
    var rest := AllNicArgs(nics) + tail;
    Regroup(Preamble(m), MgmtArgs(m), AllNicArgs(nics), tail);
    PreambleHasNoFlags(m);
    SkipWords(Preamble(m), MgmtArgs(m) + rest);
    OnePair(SlirpOption(m), MGMT_DEVICE, rest);
    NicPairs(nics, tail);
    NoPairs(tail);
    assert Map(NicPair, nics) + [] == Map(NicPair, nics);
  }

  // How often each of the two flags occurs.
  function Flags(words: seq<string>): (nat, nat) { (multiset(words)["-netdev"], multiset(words)["-device"]) }

  lemma FlagsOfGroup(netdev: string, device: string)
    requires !IsFlag(netdev) && !IsFlag(device)
    ensures Flags(["-netdev", netdev, "-device", device]) == (1, 1)
  {
  }

  lemma FlagsAdd(a: seq<string>, b: seq<string>)
    ensures Flags(a + b) == (Flags(a).0 + Flags(b).0, Flags(a).1 + Flags(b).1)
  {
  }

  lemma {:induction false} NicFlagCounts(nics: seq<Nic>)
    ensures Flags(AllNicArgs(nics)) == (|nics|, |nics|)
  {
    hide TapOption, DeviceOption, IsFlag, Flags;
    if nics == [] {
      NoFlagsCount([]);
    } else {
      NicFlagCounts(nics[1..]);
      OptionsAreNoFlags(nics[0]);
      FlagsOfGroup(TapOption(nics[0]), DeviceOption(nics[0]));
      FlagsAdd(NicArgs(nics[0]), AllNicArgs(nics[1..]));
    }
  }

  lemma NoFlagsCount(words: seq<string>)
    requires forall i :: 0 <= i < |words| ==> !IsFlag(words[i])
    ensures Flags(words) == (0, 0)
  {
  }

  // There are no other -netdev or -device options.
  lemma FlagCounts(m: Machine, nics: seq<Nic>)
    ensures Flags(Cmdline(m, nics, [])) == (|nics| + 1, |nics| + 1)
  {
    hide Preamble, SlirpOption, TapOption, DeviceOption, AllNicArgs, Flags, IsFlag;
    var tail := ["-display", "none"];
    PreambleHasNoFlags(m);
    NoFlagsCount(Preamble(m));
    NicFlagCounts(nics);
    FixedWords();
    NoFlagsCount(tail);
    MgmtHasNoFlags(m);
    FlagsOfGroup(SlirpOption(m), MGMT_DEVICE);
    FlagsAdd(Preamble(m), MgmtArgs(m));
    FlagsAdd(Preamble(m) + MgmtArgs(m), AllNicArgs(nics));
    FlagsAdd(Preamble(m) + MgmtArgs(m) + AllNicArgs(nics), tail);
    assert Cmdline(m, nics, []) == Preamble(m) + MgmtArgs(m) + AllNicArgs(nics) + tail;
  }

  lemma MgmtHasNoFlags(m: Machine)
    ensures !IsFlag(SlirpOption(m)) && !IsFlag(MGMT_DEVICE)
  {
  }

  ghost predicate CommaFree(n: Nic) { ',' !in n.tap && ',' !in n.mac }

  lemma {:induction false} NicsReadBack(nics: seq<Nic>)
    requires forall n :: n in nics ==> ',' !in n.id
    ensures |NicsIn(Map(NicPair, nics))| <= |nics|
    ensures NicsIn(Map(NicPair, nics)) == nics <==> forall n :: n in nics ==> CommaFree(n)
  {
    hide NicOf, NicPair;
    if nics != [] {
      assert nics == [nics[0]] + nics[1..];
      var pairs := Map(NicPair, nics);
      assert pairs[1..] == Map(NicPair, nics[1..]);
      NicsReadBack(nics[1..]);
      PairReadsBack(nics[0]);
      if CommaFree(nics[0]) {
        assert NicsIn(pairs) == [nics[0]] + NicsIn(pairs[1..]);
        assert ([nics[0]] + NicsIn(pairs[1..]))[1..] == NicsIn(pairs[1..]);
      } else {
        assert NicsIn(pairs) == [] + NicsIn(pairs[1..]);
        assert nics[0] in nics;
      }
    }
  }

  lemma PairReadsBack(nic: Nic)
    requires ',' !in nic.id
    ensures NicOf(NicPair(nic)) == if CommaFree(nic) then Some(nic) else None
  {
    NicRoundTrip(nic);
  }

  // Parsing the command line back gives the NICs, in order, exactly when no tap
  // name and no MAC holds a comma.
  lemma CmdlineRoundTrip(m: Machine, nics: seq<Nic>)
    requires forall n :: n in nics ==> ',' !in n.id
    ensures ParseNics(Cmdline(m, nics, [])) == nics <==> forall n :: n in nics ==> CommaFree(n)
  {
    hide Cmdline, NicOf, NicPair, SlirpOption, CommaFree;
    PairsOfCmdline(m, nics);
    MgmtPair(m);
    NicsReadBack(nics);
    var pairs := [Pair(SlirpOption(m), MGMT_DEVICE)] + Map(NicPair, nics);
    assert pairs[1..] == Map(NicPair, nics);
  }

  // ----- hosts from the loader ------------------------------------------------------------------------

  // _find_mac; None is its KeyError
  method FindMac(intent: HostIntent, name: string) returns (r: Option<string>)
    ensures r.Some? ==> exists k :: 0 <= k < |intent.nsNics| && intent.nsNics[k].name == name
                                    && r.value == intent.nsNics[k].mac
                                    && forall j :: 0 <= j < k ==> intent.nsNics[j].name != name
    ensures r.None? ==> forall n :: n in intent.nsNics ==> n.name != name
  {
    var k := 0;
    while k < |intent.nsNics|
      invariant 0 <= k <= |intent.nsNics|
      invariant forall j :: 0 <= j < k ==> intent.nsNics[j].name != name
    {
      if intent.nsNics[k].name == name { return Some(intent.nsNics[k].mac); }
      k := k + 1;
    }
    return None;
  }

  function RailOf(r: RoceUnderlay): Rail { Rail(r.name, r.mac, "tap-" + r.name) }

  function Rails(intent: HostIntent): seq<Rail> { Map(RailOf, Sort(RoceLe, intent.roce)) }

  ghost predicate LoaderBuilt(i: HostIntent) {
    exists tag, hostname, slug, views :: BuildIntent(tag, hostname, slug, views) == Ok(i)
  }

  // The host's NICs: nsa and nsb on the given taps, and each RoCE rail, in name
  // order, on the tap named after it.
  lemma HostNicWords(i: HostIntent, tapNsa: string, tapNsb: string)
    requires |i.nsNics| == 2
    ensures var nics := HostNics(i, tapNsa, tapNsb);
            && |nics| == 2 + |i.roce|
            && nics[0] == Nic("nsa0", i.nsNics[0].mac, tapNsa) && nics[1] == Nic("nsb0", i.nsNics[1].mac, tapNsb)
            && exists rails: seq<RoceUnderlay> ::
                 && multiset(rails) == multiset(i.roce) && Alphabetical(Map(RoceName, rails)) && |rails| == |i.roce|
                 && forall k :: 0 <= k < |rails| ==>
                      nics[2 + k] == Nic(rails[k].name + "0", rails[k].mac, "tap-" + rails[k].name)
  {
    var rails := Sort(RoceLe, i.roce);
    RoceOrder();
    SortMultiset(RoceLe, i.roce);
    SortedByName(RoceLe, RoceName, i.roce);
    hide Sort, Alphabetical, StrLe, TotalPreorder;
    assert |multiset(rails)| == |rails|;
  }

  lemma MacHasNoComma(mac: string)
    requires MacShape(mac)
    ensures ',' !in mac
  {
  }

  lemma LoadedNics(i: HostIntent)
    requires LoaderBuilt(i)
    ensures |i.nsNics| == 2 && i.nsNics[0].name == "nsa" && i.nsNics[1].name == "nsb"
    ensures MacShape(i.nsNics[0].mac) && MacShape(i.nsNics[1].mac)
  {
    hide Collect, Sort, Checks, FirstFailure, BondOf, ParseRole, LastNamed, MacShape, Strip, Lower;
    var tag, hostname, slug, views :| BuildIntent(tag, hostname, slug, views) == Ok(i);
    NicFacts(views, "nsa");
    NicFacts(views, "nsb");
  }

  lemma NicFacts(views: seq<IfaceView>, name: string)
    ensures NsNic(views, name).Ok? ==> NsNic(views, name).value.name == name && MacShape(NsNic(views, name).value.mac)
  {
  }

  lemma RoceFacts(v: IfaceView)
    ensures MakeRoce(v).Ok? ==> MakeRoce(v).value.name == v.name && MacShape(MakeRoce(v).value.mac)
  {
  }

  lemma LoadedRails(i: HostIntent, r: RoceUnderlay)
    requires LoaderBuilt(i) && r in Sort(RoceLe, i.roce)
    ensures IsRoceName(r.name) && MacShape(r.mac)
  {
    hide Collect, Sort, MacShape, MakeRoce, IsRoceName;
    SortMultiset(RoceLe, i.roce);
    PermutationMembers(Sort(RoceLe, i.roce), i.roce);
    var tag, hostname, slug, views :| BuildIntent(tag, hostname, slug, views) == Ok(i);
    RoceSorted(tag, hostname, slug, views);
    var found := Collect(views, IsRoceNic, MakeRoce).value;
    SortMultiset(RoceLe, found);
    PermutationMembers(Sort(RoceLe, found), found);
    CollectFrom(views, IsRoceNic, MakeRoce, r);
    var v :| v in views && IsRoceNic(v) && MakeRoce(v) == Ok(r);
    RoceFacts(v);
  }

  lemma RoceSorted(tag: string, hostname: string, slug: Option<string>, views: seq<IfaceView>)
    requires BuildIntent(tag, hostname, slug, views).Ok?
    ensures Collect(views, IsRoceNic, MakeRoce).Ok?
    ensures BuildIntent(tag, hostname, slug, views).value.roce ==
            Sort(RoceLe, Collect(views, IsRoceNic, MakeRoce).value)
  {
    hide Collect, Sort, Checks, FirstFailure, NsNics, BondOf, ParseRole;
  }

  function HostNics(i: HostIntent, tapNsa: string, tapNsb: string): seq<Nic>
    requires |i.nsNics| == 2
  {
    NicsOf(i.nsNics[0].mac, i.nsNics[1].mac, tapNsa, tapNsb, Rails(i))
  }

  lemma RoceNameShape(name: string)
    requires IsRoceName(name)
    ensures |name| > 3 && name[0] == 'g' && ',' !in name
  {
  }

  // Facts about the k-th rail of a loader-built host.
  lemma RailAt(i: HostIntent, k: nat)
    requires LoaderBuilt(i) && k < |Rails(i)|
    ensures var n := RailNic(Rails(i)[k]);
            ',' !in n.id && CommaFree(n) && |n.id| > 4 && n.id[0] == 'g'
  {
    hide LoaderBuilt, Sort, IsRoceName, MacShape;
    var sorted := Sort(RoceLe, i.roce);
    var r := sorted[k];
    assert r in sorted;
    LoadedRails(i, r);
    RoceNameShape(r.name);
    MacHasNoComma(r.mac);
    assert Rails(i)[k] == RailOf(r);
    assert ',' !in r.name + "0" && ',' !in "tap-" + r.name;
  }

  lemma RailNamesDistinct(i: HostIntent, a: nat, b: nat)
    requires Accepted(i) && a < b < |Rails(i)|
    ensures Rails(i)[a].name != Rails(i)[b].name
  {
    hide Accepted, Sort, Distinct;
    var sorted := Sort(RoceLe, i.roce);
    ListNamesDistinct(i);
    SortMultiset(RoceLe, i.roce);
    MapMultiset(RoceName, sorted, i.roce);
    DistinctPermutation(Map(RoceName, i.roce), Map(RoceName, sorted));
    DistinctAt(Map(RoceName, sorted), a, b);
  }

  lemma DistinctAt<T(!new)>(s: seq<T>, a: nat, b: nat)
    requires Distinct(s) && a < b < |s|
    ensures s[a] != s[b]
  {
  }

  lemma BuiltIsAccepted(i: HostIntent)
    requires LoaderBuilt(i)
    ensures Accepted(i)
  {
    hide BuildIntent, Accepted;
    var tag, hostname, slug, views :| BuildIntent(tag, hostname, slug, views) == Ok(i);
    LoadedIsAccepted(tag, hostname, slug, views);
  }

  lemma IdsDiffer(i: HostIntent, tapNsa: string, tapNsb: string, a: nat, b: nat)
    requires LoaderBuilt(i) && |i.nsNics| == 2 && a < b < |HostNics(i, tapNsa, tapNsb)|
    ensures HostNics(i, tapNsa, tapNsb)[a].id != HostNics(i, tapNsa, tapNsb)[b].id
    ensures HostNics(i, tapNsa, tapNsb)[a].id != "mgmt0" && HostNics(i, tapNsa, tapNsb)[b].id != "mgmt0"
  {
    hide LoaderBuilt, Rails, CommaFree;
    var nics := HostNics(i, tapNsa, tapNsb);
    assert "nsa0"[0] == 'n' && "nsb0"[0] == 'n' && "nsa0"[2] != "nsb0"[2] && "mgmt0"[0] == 'm';
    if b >= 2 {
      assert nics[b] == RailNic(Rails(i)[b - 2]);
      RailAt(i, b - 2);
    }
    if a >= 2 {
      assert nics[a] == RailNic(Rails(i)[a - 2]);
      RailAt(i, a - 2);
      BuiltIsAccepted(i);
      RailNamesDistinct(i, a - 2, b - 2);
      var x, y := Rails(i)[a - 2].name, Rails(i)[b - 2].name;
      assert (x + "0")[..|x|] == x && (y + "0")[..|y|] == y;
    }
  }

  lemma HostIdsPlain(i: HostIntent, tapNsa: string, tapNsb: string, k: nat)
    requires LoaderBuilt(i) && |i.nsNics| == 2 && k < |HostNics(i, tapNsa, tapNsb)|
    ensures var n := HostNics(i, tapNsa, tapNsb)[k];
            ',' !in n.id && (CommaFree(n) <==> (k == 0 ==> ',' !in tapNsa) && (k == 1 ==> ',' !in tapNsb))
  {
    hide LoaderBuilt, Rails, MacShape;
    LoadedNics(i);
    MacHasNoComma(i.nsNics[0].mac);
    MacHasNoComma(i.nsNics[1].mac);
    if k >= 2 {
      assert HostNics(i, tapNsa, tapNsb)[k] == RailNic(Rails(i)[k - 2]);
      RailAt(i, k - 2);
    }
  }

  // The k-th pair of a host's command line: the management NIC, then its NICs.
  lemma HostPair(m: Machine, i: HostIntent, tapNsa: string, tapNsb: string, k: nat)
    requires LoaderBuilt(i) && |i.nsNics| == 2 && k <= |HostNics(i, tapNsa, tapNsb)|
    ensures var nics := HostNics(i, tapNsa, tapNsb);
            var pairs := Pairs(Cmdline(m, nics, []));
            && |pairs| == |nics| + 1
            && NetdevId(pairs[k].netdev) == Some(if k == 0 then "mgmt0" else nics[k - 1].id)
            && DeviceId(pairs[k].device) == NetdevId(pairs[k].netdev)
  {
    hide LoaderBuilt, Cmdline, NetdevId, DeviceId, TapOption, DeviceOption, SlirpOption, HostNics, Pairs, CommaFree,
      NicOf;
    var nics := HostNics(i, tapNsa, tapNsb);
    PairsOfCmdline(m, nics);
    MgmtPair(m);
    if k > 0 {
      assert Pairs(Cmdline(m, nics, []))[k] == NicPair(nics[k - 1]);
      HostIdsPlain(i, tapNsa, tapNsb, k - 1);
      NicRoundTrip(nics[k - 1]);
    }
  }

  // For every loader-built host: all netdev ids are different, every device is
  // on the netdev just before it, and the command line reads back as the host's
  // NICs, MACs and taps in order, exactly when the two given taps hold no comma.
  lemma HostCmdline(m: Machine, i: HostIntent, tapNsa: string, tapNsb: string)
    requires LoaderBuilt(i) && |i.nsNics| == 2
    ensures var nics := HostNics(i, tapNsa, tapNsb);
            var cmd := Cmdline(m, nics, []);
            && Flags(cmd) == (|Pairs(cmd)|, |Pairs(cmd)|)
            && (forall k :: 0 <= k < |Pairs(cmd)| ==>
                  NetdevId(Pairs(cmd)[k].netdev).Some?
                  && DeviceId(Pairs(cmd)[k].device) == NetdevId(Pairs(cmd)[k].netdev))
            && (forall a, b :: 0 <= a < b < |Pairs(cmd)| ==>
                  NetdevId(Pairs(cmd)[a].netdev) != NetdevId(Pairs(cmd)[b].netdev))
            && (ParseNics(cmd) == nics <==> ',' !in tapNsa && ',' !in tapNsb)
  {
    hide LoaderBuilt, Cmdline, NetdevId, DeviceId, SlirpOption, NicPair, HostNics, ParseNics, Pairs;
    var nics := HostNics(i, tapNsa, tapNsb);
    var cmd := Cmdline(m, nics, []);
    PairsOfCmdline(m, nics);
    FlagCounts(m, nics);
    forall k | 0 <= k < |Pairs(cmd)|
      ensures NetdevId(Pairs(cmd)[k].netdev).Some? && DeviceId(Pairs(cmd)[k].device) == NetdevId(Pairs(cmd)[k].netdev)
    {
      HostPair(m, i, tapNsa, tapNsb, k);
    }
    forall a, b | 0 <= a < b < |Pairs(cmd)| ensures NetdevId(Pairs(cmd)[a].netdev) != NetdevId(Pairs(cmd)[b].netdev) {
      HostPair(m, i, tapNsa, tapNsb, a);
      HostPair(m, i, tapNsa, tapNsb, b);
      PairIdsDiffer(i, tapNsa, tapNsb, a, b);
    }
    HostReadsBack(m, i, tapNsa, tapNsb);
  }

  lemma PairIdsDiffer(i: HostIntent, tapNsa: string, tapNsb: string, a: nat, b: nat)
    requires LoaderBuilt(i) && |i.nsNics| == 2 && a < b < |HostNics(i, tapNsa, tapNsb)| + 1
    ensures var nics := HostNics(i, tapNsa, tapNsb);
            (if a == 0 then "mgmt0" else nics[a - 1].id) != nics[b - 1].id
  {
    hide LoaderBuilt, Rails;
    var nics := HostNics(i, tapNsa, tapNsb);
    if a == 0 {
      if b == 1 { IdsDiffer(i, tapNsa, tapNsb, 0, 1); } else { IdsDiffer(i, tapNsa, tapNsb, 0, b - 1); }
    } else {
      IdsDiffer(i, tapNsa, tapNsb, a - 1, b - 1);
    }
  }

  lemma TwoAtLeast(i: HostIntent, tapNsa: string, tapNsb: string)
    requires |i.nsNics| == 2
    ensures |HostNics(i, tapNsa, tapNsb)| >= 2
  {
  }

  lemma HostReadsBack(m: Machine, i: HostIntent, tapNsa: string, tapNsb: string)
    requires LoaderBuilt(i) && |i.nsNics| == 2
    ensures var nics := HostNics(i, tapNsa, tapNsb);
            ParseNics(Cmdline(m, nics, [])) == nics <==> ',' !in tapNsa && ',' !in tapNsb
  {
    hide LoaderBuilt, Cmdline, HostNics, ParseNics, CommaFree;
    var nics := HostNics(i, tapNsa, tapNsb);
    TwoAtLeast(i, tapNsa, tapNsb);
    forall k | 0 <= k < |nics|
      ensures ',' !in nics[k].id && (CommaFree(nics[k]) <==> (k == 0 ==> ',' !in tapNsa) && (k == 1 ==> ',' !in tapNsb))
    {
      HostIdsPlain(i, tapNsa, tapNsb, k);
    }
    assert nics[0] in nics && nics[1] in nics;
    CmdlineRoundTrip(m, nics);
  }

  lemma DeliveredIsBuilt(st: Store, tag: string, ids: seq<Id>, got: Loaded<HostIntent>, fault: Fault)
    requires forall id :: id in ids ==> id in st.base.ifaces.rows
    requires Delivers(got, Load(st, tag, ids), fault) && got.Ok?
    ensures LoaderBuilt(got.value)
  {
    hide BuildIntent, Views, RoleSlug;
  }

  lemma TwoNicMacs(i: HostIntent, nsa: Option<string>, nsb: Option<string>)
    requires |i.nsNics| == 2 && i.nsNics[0].name == "nsa" && i.nsNics[1].name == "nsb"
    requires nsa.Some? ==> exists k :: 0 <= k < 2 && i.nsNics[k].name == "nsa" && nsa.value == i.nsNics[k].mac
    requires nsb.Some? ==> exists k :: 0 <= k < 2 && i.nsNics[k].name == "nsb" && nsb.value == i.nsNics[k].mac
    requires nsa.None? ==> forall n :: n in i.nsNics ==> n.name != "nsa"
    requires nsb.None? ==> forall n :: n in i.nsNics ==> n.name != "nsb"
    ensures nsa == Some(i.nsNics[0].mac) && nsb == Some(i.nsNics[1].mac)
  {
  }

  // The rails in name order, each on the tap named after it.
  method CollectRails(intent: HostIntent) returns (rails: seq<Rail>)
    ensures rails == Rails(intent)
  {
    var sorted := Sort(RoceLe, intent.roce);
    hide Sort;
    rails := [];
    var k := 0;
    while k < |sorted|
      invariant 0 <= k <= |sorted|
      invariant rails == Rails(intent)[..k]
    {
      rails := rails + [Rail(sorted[k].name, sorted[k].mac, "tap-" + sorted[k].name)];
      k := k + 1;
    }
    assert Rails(intent)[..k] == Rails(intent);
  }

  function NicMac(n: Nic): string { n.mac }

  // launch_host up to the spawn: the command line and the MACs of the handle;
  // neither lookup of a MAC can fail on an intent the loader built.
  method LaunchHost(client: NetboxClient, m: Machine, tapNsa: string, tapNsb: string, extra: seq<string>)
    returns (r: Loaded<(seq<string>, seq<string>)>, ghost loaded: Loaded<HostIntent>, ghost ids: seq<Id>)
    modifies client
    ensures client.store == old(client.store)
    ensures forall id :: id in ids ==> id in client.store.base.ifaces.rows
    ensures Delivers(loaded, Load(client.store, m.tag, ids), old(client.fault))
    ensures loaded.Err? ==> r == Err(loaded.error)
    ensures loaded.Ok? ==> LoaderBuilt(loaded.value) && |loaded.value.nsNics| == 2 && r.Ok?
                           && r.value.0 == Cmdline(m, HostNics(loaded.value, tapNsa, tapNsb), extra)
                           && r.value.1 == Map(NicMac, HostNics(loaded.value, tapNsa, tapNsb))
  {
    hide Load, BuildIntent, Cmdline, Rails, MacShape, LoaderBuilt, Delivers, Listing;
    var got;
    got, ids := LoadHostIntent(client, m.tag);
    loaded := got;
    if got.Err? { return Err(got.error), loaded, ids; }
    var intent := got.value;
    DeliveredIsBuilt(client.store, m.tag, ids, got, old(client.fault));
    LoadedNics(intent);
    var nsaMac := FindMac(intent, "nsa");
    var nsbMac := FindMac(intent, "nsb");
    TwoNicMacs(intent, nsaMac, nsbMac);
    var rails := CollectRails(intent);
    var cmd := BuildCmdline(m, nsaMac.value, nsbMac.value, tapNsa, tapNsb, rails, extra);
    var macs := [nsaMac.value, nsbMac.value] + Map(RailMac, rails);
    HostMacs(intent, tapNsa, tapNsb);
    return Ok((cmd, macs)), loaded, ids;
  }

  function RailMac(r: Rail): string { r.mac }

  lemma HostMacs(i: HostIntent, tapNsa: string, tapNsb: string)
    requires |i.nsNics| == 2
    ensures Map(NicMac, HostNics(i, tapNsa, tapNsb)) == [i.nsNics[0].mac, i.nsNics[1].mac] + Map(RailMac, Rails(i))
  {
  }
}
