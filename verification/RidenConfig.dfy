/** The configuration and its image in EEPROM, over commits and reboots. */
module RidenConfig {
  import opened Options
  import opened Bytes

  const DEFAULT_UART_BAUDRATE: word := 9600
  const EEPROM_SIZE: nat := 512
  const NAME_SIZE: nat := 100
  const V2_SIZE: nat := 112      // three bytes of padding in front of the baud rate

  /** "RD" with its terminator. */
  const MAGIC: seq<byte> := [82, 68, 0]

  datatype Fields = Fields(zone: seq<byte>, portal: bool, baud: word)

  const Defaults: Fields := Fields([], false, DEFAULT_UART_BAUDRATE)

  /** A name that strcpy can put into its field. */
  predicate NameOk(zone: seq<byte>) {
    |zone| < NAME_SIZE && forall k | 0 <= k < |zone| :: zone[k] != 0
  }

  function LittleEndian(w: word): (b: seq<byte>)
    ensures |b| == 4
  {
    [w % 0x100, w / 0x100 % 0x100, w / 0x1_0000 % 0x100, w / 0x100_0000]
  }

  function FromLittleEndian(b: seq<byte>): word
    requires |b| == 4
  {
    FromBigEndian([b[3], b[2], b[1], b[0]])
  }

  /** The characters in front of the terminator. */
  function CString(b: seq<byte>): seq<byte> {
    if b == [] || b[0] == 0 then [] else [b[0]] + CString(b[1..])
  }

  // ----- The image -----

  /** The struct a commit writes: what it does not assign keeps whatever the stack held. */
  function Encode(f: Fields, stale: seq<byte>): (s: seq<byte>)
    requires NameOk(f.zone) && |stale| == V2_SIZE
    ensures |s| == V2_SIZE
  {
    MAGIC + [2] + f.zone + [0] + stale[5 + |f.zone|..104] + [if f.portal then 1 else 0] + stale[105..108]
      + LittleEndian(f.baud)
  }

  /** An image whose zone name is terminated, if it is an image of a known version at all. */
  predicate Readable(image: seq<byte>) {
    |image| == EEPROM_SIZE && (Known(image) ==> exists k :: 4 <= k < 104 && image[k] == 0)
  }

  predicate Known(image: seq<byte>)
    requires |image| == EEPROM_SIZE
  {
    image[..3] == MAGIC && image[3] in {1, 2}
  }

  /** What `begin` takes from an image; a V1 image has no baud rate, so the present one stays. */
  function Load(present: Fields, image: seq<byte>): Option<Fields>
    requires |image| == EEPROM_SIZE
  {
    if !Known(image) then None
    else
      var zone, portal := CString(image[4..104]), image[104] != 0;
      Some(Fields(zone, portal, if image[3] == 1 then present.baud else FromLittleEndian(image[108..112])))
  }

  function Put(image: seq<byte>, struct: seq<byte>): (r: seq<byte>)
    requires |image| == EEPROM_SIZE && |struct| == V2_SIZE
    ensures |r| == EEPROM_SIZE
  {
    struct + image[V2_SIZE..]
  }

  lemma LittleEndianInverse(w: word)
    ensures FromLittleEndian(LittleEndian(w)) == w
  {
    BigEndianInverse(w, BigEndian(w));
    var b := LittleEndian(w);
    assert [b[3], b[2], b[1], b[0]] == BigEndian(w);
  }

  /** The other way round in EEPROM: the first byte carries the least significant bits. */
  lemma HostOrder(w: word)
    ensures var b := LittleEndian(w);
      var b0: int, b1: int, b2: int, b3: int := b[0], b[1], b[2], b[3];
      w == b3 * 0x100_0000 + b2 * 0x1_0000 + b1 * 0x100 + b0
  {
    NetworkOrder(w);
  }

  lemma {:induction false} CStringTerminated(zone: seq<byte>, rest: seq<byte>)
    requires forall k | 0 <= k < |zone| :: zone[k] != 0
    ensures CString(zone + [0] + rest) == zone
    decreases |zone|
  {
    if zone != [] {
      assert (zone + [0] + rest)[1..] == zone[1..] + [0] + rest;
      CStringTerminated(zone[1..], rest);
    }
  }

  /** All three fields come back, whatever the stack and the rest of the EEPROM held. */
  lemma LoadAfterPut(f: Fields, stale: seq<byte>, image: seq<byte>, present: Fields)
    requires NameOk(f.zone) && |stale| == V2_SIZE && |image| == EEPROM_SIZE
    ensures Readable(Put(image, Encode(f, stale)))
    ensures Load(present, Put(image, Encode(f, stale))) == Some(f)
  {
    var r := Put(image, Encode(f, stale));
    assert r[..3] == MAGIC && r[3] == 2;
    assert r[4 + |f.zone|] == 0;
    assert r[4..104] == f.zone + [0] + stale[5 + |f.zone|..104];
    CStringTerminated(f.zone, stale[5 + |f.zone|..104]);
    assert r[108..112] == LittleEndian(f.baud);
    LittleEndianInverse(f.baud);
  }

  /** A V1 image: header, name and flag only. */
  lemma LoadV1(zone: seq<byte>, portal: bool, rest: seq<byte>, tail: seq<byte>)
    requires NameOk(zone) && |rest| == 99 - |zone| && |tail| == EEPROM_SIZE - 105
    ensures Load(Defaults, MAGIC + [1] + (zone + [0] + rest) + [if portal then 1 else 0] + tail)
         == Some(Fields(zone, portal, DEFAULT_UART_BAUDRATE))
  {
    var image := MAGIC + [1] + (zone + [0] + rest) + [if portal then 1 else 0] + tail;
    assert image[..3] == MAGIC && image[3] == 1;
    assert image[4..104] == zone + [0] + rest;
    CStringTerminated(zone, rest);
  }

  /** An image of another maker or version is not taken for one. */
  lemma OthersAreUnknown(present: Fields, image: seq<byte>)
    requires |image| == EEPROM_SIZE
    ensures Load(present, image).Some? <==> image[..4] == [82, 68, 0, 1] || image[..4] == [82, 68, 0, 2]
  {
    assert image[..4] == image[..3] + [image[3]];
  }

  /** A V2 image, as any build lays it out: header, name, flag, three bytes of padding, baud rate. */
  lemma LoadV2(present: Fields, zone: seq<byte>, portal: bool, baud: word, rest: seq<byte>, pad: seq<byte>, tail: seq<byte>)
    requires NameOk(zone) && |rest| == 99 - |zone| && |pad| == 3 && |tail| == EEPROM_SIZE - 112
    ensures Load(present, [82, 68, 0, 2] + (zone + [0] + rest) + [if portal then 1 else 0] + pad + LittleEndian(baud) + tail)
         == Some(Fields(zone, portal, baud))
  {
    var image := [82, 68, 0, 2] + (zone + [0] + rest) + [if portal then 1 else 0] + pad + LittleEndian(baud) + tail;
    assert image[..3] == MAGIC && image[3] == 2;
    assert image[4..104] == zone + [0] + rest;
    assert image[108..112] == LittleEndian(baud);
    CStringTerminated(zone, rest);
    LittleEndianInverse(baud);
  }

  // ----- Runs -----

  datatype Device = Device(
    fields: Fields,
    flash: seq<byte>,
    saved: Option<Fields>, // bookkeeping: the fields of the last commit that worked
    requested: bool,       // bookkeeping: was a portal request committed since the last boot's check?
    stuck: bool,           // bookkeeping: could the last request not be taken out of the image since?
    portals: seq<bool>)    // bookkeeping: what each boot did

  /** The bytes the stack happens to hold, and whether the commit works, are part of the action. */
  datatype Action =
    | Boot(stale: seq<byte>, works: bool)
    | SetZone(zone: seq<byte>)
    | AskForPortal
    | SetBaud(baud: word)
    | Save(stale: seq<byte>, works: bool)

  predicate Possible(a: Action) {
    match a
    case Boot(stale, _) => |stale| == V2_SIZE
    case Save(stale, _) => |stale| == V2_SIZE
    case SetZone(zone) => NameOk(zone)
    case _ => true
  }

  predicate DeviceOk(d: Device) {
    Readable(d.flash) && NameOk(d.fields.zone)
  }

  lemma {:induction false} CStringIsName(b: seq<byte>, k: nat)
    requires k < |b| <= NAME_SIZE && b[k] == 0
    ensures NameOk(CString(b)) && |CString(b)| <= k
    decreases |b|
  {
    if b[0] != 0 {
      CStringIsName(b[1..], k - 1);
    }
  }

  lemma LoadedNameOk(present: Fields, image: seq<byte>)
    requires Readable(image)
    ensures Load(present, image).Some? ==> NameOk(Load(present, image).value.zone)
  {
    if Known(image) {
      var k :| 4 <= k < 104 && image[k] == 0;
      assert image[4..104][k - 4] == 0;
      CStringIsName(image[4..104], k - 4);
    }
  }

  /** A commit that fails leaves the image in flash alone. */
  function Commit(d: Device, stale: seq<byte>, works: bool): (e: Device)
    requires DeviceOk(d) && |stale| == V2_SIZE
    ensures DeviceOk(e)
  {
    LoadAfterPut(d.fields, stale, d.flash, Defaults);
    if works then d.(flash := Put(d.flash, Encode(d.fields, stale)), saved := Some(d.fields)) else d
  }

  /** begin(): load the image, or write one with what is there. */
  function Begin(d: Device, stale: seq<byte>, works: bool): (e: Device)
    requires DeviceOk(d) && |stale| == V2_SIZE
    ensures DeviceOk(e)
  {
    LoadedNameOk(d.fields, d.flash);
    match Load(d.fields, d.flash)
    case Some(f) => d.(fields := f)
    case None => Commit(d, stale, works)
  }

  /** get_and_reset_config_portal_on_boot() */
  function CheckPortal(d: Device, stale: seq<byte>, works: bool): (Device, bool)
    requires DeviceOk(d) && |stale| == V2_SIZE
  {
    if d.fields.portal then (Commit(d.(fields := d.fields.(portal := false)), stale, works), true) else (d, false)
  }

  function Step(d: Device, a: Action): (e: Device)
    requires DeviceOk(d) && Possible(a)
    ensures DeviceOk(e)
  {
    match a
    case Boot(stale, works) =>
      var (e, open) := CheckPortal(Begin(d.(fields := Defaults), stale, works), stale, works);
      e.(requested := false, stuck := open && !works, portals := d.portals + [open])
    case SetZone(zone) => d.(fields := d.fields.(zone := zone))
    case AskForPortal => d.(fields := d.fields.(portal := true))
    case SetBaud(baud) => d.(fields := d.fields.(baud := baud))
    case Save(stale, works) =>
      var e := Commit(d, stale, works);
      if works then e.(requested := d.requested || d.fields.portal, stuck := false) else e
  }

  predicate AllPossible(run: seq<Action>) {
    forall k | 0 <= k < |run| :: Possible(run[k])
  }

  function After(d: Device, run: seq<Action>): (e: Device)
    requires DeviceOk(d) && AllPossible(run)
    ensures DeviceOk(e)
  {
    if run == [] then d else Step(After(d, run[..|run| - 1]), run[|run| - 1])
  }

  /**
   * The image always holds the fields of the last commit that worked, its portal flag is a request that waits
   * for the next boot, and once asked for in RAM the flag stays until then.
   */
  predicate Consistent(d: Device) {
    && DeviceOk(d)
    && Load(Defaults, d.flash) == d.saved
    && ((d.saved.Some? && d.saved.value.portal) <==> d.requested || d.stuck)
    && (d.requested ==> d.fields.portal)
  }

  lemma CommitConsistent(d: Device, stale: seq<byte>, works: bool)
    requires DeviceOk(d) && |stale| == V2_SIZE
    ensures var e := Commit(d, stale, works);
      && e.fields == d.fields
      && if works then Load(Defaults, e.flash) == Some(d.fields) && e.saved == Some(d.fields)
         else e.flash == d.flash && e.saved == d.saved
  {
    LoadAfterPut(d.fields, stale, d.flash, Defaults);
  }

  /** The fields a device comes up with: those of the last commit that worked, else the defaults. */
  function Kept(d: Device): Fields {
    if d.saved.Some? then d.saved.value else Defaults
  }

  /** What a boot makes of a device. */
  predicate Restores(d: Device, e: Device, works: bool) {
    && e.fields == Kept(d).(portal := false)
    && e.portals == d.portals + [d.requested || d.stuck]
    && e.saved == (if works && (d.saved.None? || Kept(d).portal) then Some(e.fields) else d.saved)
  }

  lemma BootConsistent(d: Device, stale: seq<byte>, works: bool)
    requires Consistent(d) && |stale| == V2_SIZE
    ensures Consistent(Step(d, Boot(stale, works))) && Restores(d, Step(d, Boot(stale, works)), works)
  {
    var b := Begin(d.(fields := Defaults), stale, works);
    CommitConsistent(d.(fields := Defaults), stale, works);
    assert b.fields == Kept(d);
    CommitConsistent(b.(fields := b.fields.(portal := false)), stale, works);
  }

  lemma StepConsistent(d: Device, a: Action)
    requires Consistent(d) && Possible(a)
    ensures Consistent(Step(d, a))
  {
    match a {
      case Boot(stale, works) => BootConsistent(d, stale, works);
      case Save(stale, works) => CommitConsistent(d, stale, works);
      case _ =>
    }
  }

  /** A device as it comes: any image that can be read at all, and nothing known about it. */
  predicate Initially(d: Device) {
    && DeviceOk(d) && d.saved == Load(Defaults, d.flash)
    && !d.requested && d.stuck == (d.saved.Some? && d.saved.value.portal)
  }

  /** The very first boot keeps what a readable image holds, and opens the portal if the image asks for it. */
  lemma FirstBoot(d: Device, stale: seq<byte>, works: bool)
    requires Initially(d) && |stale| == V2_SIZE
    ensures var e, image := Step(d, Boot(stale, works)), Load(Defaults, d.flash);
      && e.portals == d.portals + [image.Some? && image.value.portal]
      && e.fields == (if image.Some? then image.value.(portal := false) else Defaults)
      && Consistent(e)
  {
    BootConsistent(d, stale, works);
  }

  lemma {:induction false} RunConsistent(d: Device, run: seq<Action>)
    requires Consistent(d) && AllPossible(run)
    ensures Consistent(After(d, run))
    decreases |run|
  {
    if run != [] {
      RunConsistent(d, run[..|run| - 1]);
      StepConsistent(After(d, run[..|run| - 1]), run[|run| - 1]);
    }
  }

  /**
   * Over every run of boots, settings and commits that work or fail: each boot restores the fields of the last
   * commit that worked with the request taken out, and it opens the portal exactly when a request was committed
   * since the check of the boot before, or the one that boot found could not be taken out of the image.
   */
  lemma BootRestoresAndOpens(d: Device, run: seq<Action>, stale: seq<byte>, works: bool)
    requires Initially(d) && AllPossible(run) && |stale| == V2_SIZE
    ensures Restores(After(d, run), Step(After(d, run), Boot(stale, works)), works)
  {
    RunConsistent(d, run);
    BootConsistent(After(d, run), stale, works);
  }

  /** Where every commit works nothing is ever stuck: the portal opens exactly for a request committed since. */
  lemma {:induction false} NeverStuck(d: Device, run: seq<Action>)
    requires Initially(d) && !d.stuck && AllPossible(run)
    requires forall k | 0 <= k < |run| :: (run[k].Boot? || run[k].Save?) ==> run[k].works
    ensures !After(d, run).stuck
    decreases |run|
  {
    if run != [] {
      NeverStuck(d, run[..|run| - 1]);
    }
  }

  // ----- The object -----

  class Config {
    var zone: seq<byte>
    var portalOnBoot: bool
    var baudRate: word
    var ram: seq<byte>     // the EEPROM library's copy
    var flash: seq<byte>

    ghost predicate Valid()
      reads this
    {
      && |ram| == EEPROM_SIZE && Readable(flash) && NameOk(zone)
      && ram[V2_SIZE..] == flash[V2_SIZE..]
    }

    ghost function View(): Fields
      reads this
    {
      Fields(zone, portalOnBoot, baudRate)
    }

    constructor (flash: seq<byte>)
      requires Readable(flash)
      ensures Valid() && View() == Defaults && this.flash == flash
    {
      zone, portalOnBoot, baudRate := [], false, DEFAULT_UART_BAUDRATE;
      ram, this.flash := flash, flash;
    }

    /** `works` is what EEPROM.commit reports; a commit that fails leaves the flash alone. */
    method Commit(stale: seq<byte>, works: bool) returns (success: bool)
      requires Valid() && |stale| == V2_SIZE
      modifies this`ram, this`flash
      ensures Valid() && success == works
      ensures ram == Put(old(ram), Encode(View(), stale))
      ensures flash == if works then Put(old(flash), Encode(View(), stale)) else old(flash)
    {
      LoadAfterPut(View(), stale, ram, Defaults);
      ram := Put(ram, MAGIC + [2] + zone + [0] + stale[5 + |zone|..104] + [if portalOnBoot then 1 else 0]
                      + stale[105..108] + LittleEndian(baudRate));
      if works {
        flash := ram;
      }
      success := works;
    }

    /** A known image replaces the fields; an unknown one is replaced by an image of the fields. */
    method Begin(stale: seq<byte>, works: bool) returns (success: bool)
      requires Valid() && |stale| == V2_SIZE
      modifies this
      ensures Valid()
      ensures var image := Load(old(View()), old(flash));
        match image
        case Some(f) => success && View() == f && flash == old(flash)
        case None => success == works && View() == old(View())
                     && flash == if works then Put(old(flash), Encode(View(), stale)) else old(flash)
    {
      LoadedNameOk(View(), flash);
      ram := flash;
      success := false;
      if ram[..3] == MAGIC {
        match ram[3] {
          case 1 =>
            zone, portalOnBoot := CString(ram[4..104]), ram[104] != 0;
            success := true;
          case 2 =>
            zone, portalOnBoot := CString(ram[4..104]), ram[104] != 0;
            baudRate := FromLittleEndian(ram[108..112]);
            success := true;
          case _ =>
        }
      }
      if !success {
        success := Commit(stale, works);
      }
    }

    /** The answer does not depend on whether the flag could be cleared for good. */
    method GetAndResetConfigPortalOnBoot(stale: seq<byte>, works: bool) returns (open: bool)
      requires Valid() && |stale| == V2_SIZE
      modifies this
      ensures Valid() && open == old(portalOnBoot)
      ensures View() == old(View()).(portal := false)
      ensures if open && works then Load(Defaults, flash) == Some(View()) else flash == old(flash)
    {
      if portalOnBoot {
        portalOnBoot := false;
        LoadAfterPut(View(), stale, ram, Defaults);
        var _ := Commit(stale, works);
        return true;
      }
      return false;
    }

    method SetTimezoneName(name: seq<byte>)
      requires Valid() && NameOk(name)
      modifies this`zone
      ensures Valid() && View() == old(View()).(zone := name)
    {
      zone := name;
    }

    method SetConfigPortalOnBoot()
      requires Valid()
      modifies this`portalOnBoot
      ensures Valid() && View() == old(View()).(portal := true)
    {
      portalOnBoot := true;
    }

    method SetUartBaudrate(rate: word)
      requires Valid()
      modifies this`baudRate
      ensures Valid() && View() == old(View()).(baud := rate)
    {
      baudRate := rate;
    }
  }
}
