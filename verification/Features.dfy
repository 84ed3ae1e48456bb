/** The feature functions of the driver: enable bits and configurations, each a page read, edited and
    written back. */
module Features {
  import opened Device
  import opened Driver
  import opened Pages
  import opened Steps

  function PageOf(p: nat): (b: bv8)
    requires p < PAGES
    ensures b < 8 && b as nat == p
  {
    PageBits(p);
    p as bv8
  }

  /** The set of features the driver believes in after a write with outcome `rslt`. */
  function Believed(stat: set<Feature>, f: Feature, enable: bool, rslt: Rslt): set<Feature> {
    if rslt == OK && enable then stat + {f} else stat - {f}
  }

  /** `set_any_motion`, `set_no_motion`, ... `set_wrist_wear_wake_up`: the ten functions differ in the place
      of the bit only.  A failed write takes the feature out of `sens_en_stat`, whatever it was asked. */
  method SetFeature(d: Dev, f: Feature, enable: bool) returns (rslt: Rslt)
    requires d.dev.Valid() && d.readWriteLen >= 2
    modifies d`dev, d`faults, d`readWriteLen, d`apsStatus, d`sensEnStat
    ensures d.dev.Valid() && d.apsStatus == old(d.apsStatus) && d.readWriteLen >= 2
    ensures rslt == OK ==>
      d.dev == Paged(old(d.dev), PageOf(EnableBit(f).page), WithEnable(old(d.dev).pages, f, enable))
      && d.sensEnStat == Believed(old(d.sensEnStat), f, enable, OK)
    ensures rslt != OK ==>
      d.dev.pages == old(d.dev).pages && (d.sensEnStat == old(d.sensEnStat) || d.sensEnStat == old(d.sensEnStat) - {f})
    ensures old(d.faults) == [] ==> d.faults == [] && rslt == OK
  {
    hide WithPage, Write, EnabledPage, EnableBit;
    var page := PageOf(EnableBit(f).page);
    var feat;
    rslt, feat := d.GetFeatConfig(page);
    if rslt == OK {
      PageWritten(old(d.dev), page, EnabledPage(feat, f, enable));
      rslt := d.SetRegs(FEATURES, EnabledPage(feat, f, enable));
      d.sensEnStat := Believed(d.sensEnStat, f, enable, rslt);
    }
  }

  /** `set_any_motion_config` and its kind. */
  method SetConfig(d: Dev, c: Config, values: seq<bv16>) returns (rslt: Rslt)
    requires d.dev.Valid() && d.readWriteLen >= 2 && |values| == |Fields(c)|
    modifies d`dev, d`faults, d`readWriteLen, d`apsStatus
    ensures d.dev.Valid() && d.apsStatus == old(d.apsStatus) && d.readWriteLen >= 2
    ensures rslt == OK ==> d.dev == Paged(old(d.dev), PageOf(ConfigPage(c)), WithConfig(old(d.dev).pages, c, values))
    ensures rslt != OK ==> d.dev.pages == old(d.dev).pages
    ensures old(d.faults) == [] ==> d.faults == [] && rslt == OK
  {
    TableIsWellPlaced(c);
    hide WithPage, Write, WithFields, Fields, ConfigPage, WellPlaced;
    var page := PageOf(ConfigPage(c));
    var feat;
    rslt, feat := d.GetFeatConfig(page);
    if rslt == OK {
      feat := WithFields(feat, Fields(c), values);
      PageWritten(old(d.dev), page, feat);
      rslt := d.SetRegs(FEATURES, feat);
    }
  }

  /** `get_any_motion_config` and its kind. */
  method GetConfig(d: Dev, c: Config) returns (rslt: Rslt, values: seq<bv16>)
    requires d.dev.Valid() && d.readWriteLen >= 2
    modifies d`dev, d`faults, d`readWriteLen, d`apsStatus
    ensures d.dev.Valid() && d.apsStatus == old(d.apsStatus) && d.readWriteLen >= 2 && d.dev.pages == old(d.dev).pages
    ensures rslt == OK ==> values == ConfigOf(old(d.dev).pages, c)
    ensures rslt == OK ==> d.dev == Paged(old(d.dev), PageOf(ConfigPage(c)), old(d.dev).pages)
    ensures old(d.faults) == [] ==> d.faults == [] && rslt == OK
  {
    hide WithPage, Write, Fields, ConfigPage, GetField, Paged;
    PageVisited(d.dev, PageOf(ConfigPage(c)));
    var feat;
    rslt, feat := d.GetFeatConfig(PageOf(ConfigPage(c)));
    values := [];
    if rslt == OK {
      values := ConfigIn(feat, c);
    }
  }
}
