/** `get_hardware` from utils.py: classify the machine as an XO 1, XO 1.5,
    XO 1.75 or something unknown. The desktop-management strings and the
    file-existence probes are inputs instead of file-system reads. */
module Hardware {
  import opened Outcomes

  datatype Hardware = XO1 | XO15 | XO175 | Unknown

  /** The string constants the source returns (utils.py:20-23). */
  function Name(h: Hardware): string
  {
    match h
    case XO1 => "xo1"
    case XO15 => "xo1.5"
    case XO175 => "xo1.75"
    case Unknown => "unknown"
  }

  /** What the probes saw. `product` and `version` are the stripped first
      lines of /sys/class/dmi/id/product_name and product_version, `None`
      when the file could not be read; the booleans say whether
      /sys/devices/platform/lis3lv02d/position, /etc/olpc-release and
      /sys/power/olpc-pm exist. */
  datatype Probe = Probe(
    product: Option<string>,
    version: Option<string>,
    accelerometer: bool,
    olpcRelease: bool,
    olpcPm: bool)

  /** The decision tree of `get_hardware`. The version is only consulted
      for an "XO" product, so an unreadable version there means XO 1.75.
      The contract characterises each answer by the probes that produce it. */
  function GetHardware(p: Probe): (h: Hardware)
    ensures h == XO1 <==>
      (p.product.None? && !p.accelerometer && (p.olpcRelease || p.olpcPm)) ||
      (p.product == Some("XO") && p.version == Some("1"))
    ensures h == XO15 <==> p.product == Some("XO") && p.version == Some("1.5")
    ensures h == XO175 <==>
      (p.product.None? && p.accelerometer) ||
      (p.product == Some("XO") && p.version != Some("1") && p.version != Some("1.5"))
    ensures h == Unknown <==>
      (p.product.None? && !p.accelerometer && !p.olpcRelease && !p.olpcPm) ||
      (p.product.Some? && p.product.value != "XO")
  {
    if p.product.None? then
      if p.accelerometer then XO175
      else if p.olpcRelease || p.olpcPm then XO1
      else Unknown
    else if p.product.value != "XO" then Unknown
    else if p.version == Some("1") then XO1
    else if p.version == Some("1.5") then XO15
    else XO175
  }

  /** The returned names are the four distinct constants. */
  lemma NamesDistinct(a: Hardware, b: Hardware)
    ensures Name(a) == Name(b) <==> a == b
  {
  }

  /** Without a product string the accelerometer probe wins over the OLPC
      files, which win over "unknown". */
  lemma NoProductOrder(p: Probe)
    requires p.product.None?
    ensures p.accelerometer ==> GetHardware(p) == XO175
    ensures !p.accelerometer && (p.olpcRelease || p.olpcPm) ==> GetHardware(p) == XO1
    ensures !p.accelerometer && !p.olpcRelease && !p.olpcPm ==> GetHardware(p) == Unknown
  {
  }

  /** A readable but empty product string is not "no product": the machine
      is unknown whatever the other probes say. */
  lemma EmptyProductIsUnknown(p: Probe)
    requires p.product == Some("")
    ensures GetHardware(p) == Unknown
  {
  }

  /** A product other than "XO" ignores the version. */
  lemma OtherProductIgnoresVersion(p: Probe, version: Option<string>)
    requires p.product.Some? && p.product.value != "XO"
    ensures GetHardware(p) == GetHardware(p.(version := version)) == Unknown
  {
  }
}
