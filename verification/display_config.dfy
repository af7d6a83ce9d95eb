/** The request encoder for Win32 `SetDisplayConfig` (src/sdc.rs): a structured
    description of one call, the SDC_* flag set it encodes to, and the path and
    mode buffers it forwards. */
module DisplayConfig {
  import opened SdcFlags

  /** One DISPLAYCONFIG_PATH_INFO record. This layer only forwards it. */
  datatype PathInfo = PathInfo(bytes: seq<bv8>)

  /** One DISPLAYCONFIG_MODE_INFO record. This layer only forwards it. */
  datatype ModeInfo = ModeInfo(bytes: seq<bv8>)

  /** Whether the call changes the display configuration or only checks it. */
  datatype SdcAction = Apply(noOptimization: bool) | Validate

  /** Which stored topologies the OS may choose from when applying from its database. */
  datatype SdcDatabaseTopologies =
    SdcDatabaseTopologies(internal: bool, clone: bool, extend: bool, external: bool)

  /** `SdcDatabaseTopologies::CURRENT`, which is also its default: every topology. */
  const Current := SdcDatabaseTopologies(true, true, true, true)

  /** Where the configuration to apply comes from. */
  datatype SdcConfig =
    | SuppliedConfig(forceModeEnumeration: bool, saveToDatabase: bool,
                     paths: seq<PathInfo>, modes: seq<ModeInfo>)
    | SuppliedTopology(allowPathOrderChanges: bool, paths: seq<PathInfo>)
    | Database(topologies: SdcDatabaseTopologies, pathPersistIfRequired: bool)

  /** One complete `SetDisplayConfig` request. */
  datatype Sdc = Sdc(action: SdcAction, config: SdcConfig, allowChanges: bool)

  /** `Sdc::default()`: the defaults of its three fields. */
  const DefaultSdc := Sdc(SdcAction.Apply(false), Database(Current, false), false)

  /** The rule the encoder asserts: force-mode-enumeration only with the apply bit. */
  predicate ForceModeEnumerationAllowed(sdc: Sdc)
  {
    sdc.config.SuppliedConfig? && sdc.config.forceModeEnumeration ==> sdc.action.Apply?
  }

  /** The encoding table read flag by flag: the condition under which the
      request carries `f`. */
  predicate Selects(sdc: Sdc, f: Flag)
  {
    var a, c := sdc.action, sdc.config;
    match f
    case Apply => a.Apply?
    case NoOptimization => a.Apply? && a.noOptimization
    case Validate => a.Validate?
    case UseSuppliedDisplayConfig => c.SuppliedConfig?
    case ForceModeEnumeration => c.SuppliedConfig? && c.forceModeEnumeration
    case SaveToDatabase => c.SuppliedConfig? && c.saveToDatabase
    case TopologySupplied => c.SuppliedTopology?
    case AllowPathOrderChanges => c.SuppliedTopology? && c.allowPathOrderChanges
    case TopologyInternal => c.Database? && c.topologies.internal
    case TopologyClone => c.Database? && c.topologies.clone
    case TopologyExtend => c.Database? && c.topologies.extend
    case TopologyExternal => c.Database? && c.topologies.external
    case PathPersistIfRequired => c.Database? && c.pathPersistIfRequired
    case AllowChanges => sdc.allowChanges
  }

  /** The `flag!` step: add `f` when `b` holds. */
  function SetIf(flags: set<Flag>, b: bool, f: Flag): set<Flag>
  {
    if b then flags + {f} else flags
  }

  /** `Sdc::flags`: the SDC_* flags of the request, built up in the order the
      source ORs them in. */
  function Flags(sdc: Sdc): (r: set<Flag>)
    requires ForceModeEnumerationAllowed(sdc)
    ensures forall f :: f in r <==> Selects(sdc, f)
  {
    var flags := {};
    var flags := match sdc.action
      case Apply(noOptimization) =>
        SetIf(SetIf(flags, true, Flag.Apply), noOptimization, NoOptimization)
      case Validate => SetIf(flags, true, Flag.Validate);
    var flags := match sdc.config
      case SuppliedConfig(forceModeEnumeration, saveToDatabase, _, _) =>
        assert forceModeEnumeration ==> Flag.Apply in flags;
        SetIf(SetIf(SetIf(flags, true, UseSuppliedDisplayConfig),
                    forceModeEnumeration, ForceModeEnumeration),
              saveToDatabase, SaveToDatabase)
      case SuppliedTopology(allowPathOrderChanges, _) =>
        SetIf(SetIf(flags, true, TopologySupplied), allowPathOrderChanges, AllowPathOrderChanges)
      case Database(topologies, pathPersistIfRequired) =>
        SetIf(SetIf(SetIf(SetIf(SetIf(flags,
          topologies.internal, TopologyInternal),
          topologies.clone, TopologyClone),
          topologies.extend, TopologyExtend),
          topologies.external, TopologyExternal),
          pathPersistIfRequired, PathPersistIfRequired);
    SetIf(flags, sdc.allowChanges, AllowChanges)
  }

  /** `Sdc::paths`: the path buffer forwarded to the OS. */
  function Paths(sdc: Sdc): (r: seq<PathInfo>)
    ensures sdc.config.Database? ==> r == []
    ensures !sdc.config.Database? ==> r == sdc.config.paths
  {
    if sdc.config.SuppliedConfig? || sdc.config.SuppliedTopology? then sdc.config.paths else []
  }

  /** `Sdc::modes`: the mode buffer forwarded to the OS. */
  function Modes(sdc: Sdc): (r: seq<ModeInfo>)
    ensures sdc.config.SuppliedConfig? ==> r == sdc.config.modes
    ensures !sdc.config.SuppliedConfig? ==> r == []
  {
    if sdc.config.SuppliedConfig? then sdc.config.modes else []
  }

  /** The 32-bit word the OS receives carries a flag's bit exactly when the
      encoding table selects that flag for the request. */
  lemma WordTable(sdc: Sdc, f: Flag)
    requires ForceModeEnumerationAllowed(sdc)
    ensures (Encode(Flags(sdc)) & Bit(f) != 0) <==> Selects(sdc, f)
  {
    EncodeHas(Flags(sdc), f);
  }

  /** The action bits: `Apply` always carries the apply bit and carries the
      no-optimization bit exactly when asked; `Validate` carries only the
      validate bit. The two actions never share a bit. */
  lemma ActionFlags(sdc: Sdc)
    requires ForceModeEnumerationAllowed(sdc)
    ensures sdc.action.Apply? ==>
      && Flag.Apply in Flags(sdc)
      && (NoOptimization in Flags(sdc) <==> sdc.action.noOptimization)
      && Flag.Validate !in Flags(sdc)
    ensures sdc.action.Validate? ==>
      && Flag.Validate in Flags(sdc)
      && Flag.Apply !in Flags(sdc)
      && NoOptimization !in Flags(sdc)
  {
  }

  /** A supplied configuration carries the use-supplied bit, the force and save
      bits exactly when asked, and none of the topology or path-order bits. */
  lemma SuppliedConfigFlags(sdc: Sdc)
    requires sdc.config.SuppliedConfig? && ForceModeEnumerationAllowed(sdc)
    ensures UseSuppliedDisplayConfig in Flags(sdc)
    ensures ForceModeEnumeration in Flags(sdc) <==> sdc.config.forceModeEnumeration
    ensures SaveToDatabase in Flags(sdc) <==> sdc.config.saveToDatabase
    ensures Flags(sdc) !! {TopologyInternal, TopologyClone, TopologyExtend, TopologyExternal,
                          TopologySupplied, AllowPathOrderChanges, PathPersistIfRequired}
  {
  }

  /** A supplied topology carries the topology-supplied bit, the path-order bit
      exactly when asked, and none of the supplied-config bits. */
  lemma SuppliedTopologyFlags(sdc: Sdc)
    requires sdc.config.SuppliedTopology?
    ensures TopologySupplied in Flags(sdc)
    ensures AllowPathOrderChanges in Flags(sdc) <==> sdc.config.allowPathOrderChanges
    ensures Flags(sdc) !! {UseSuppliedDisplayConfig, ForceModeEnumeration, SaveToDatabase,
                          TopologyInternal, TopologyClone, TopologyExtend, TopologyExternal,
                          PathPersistIfRequired}
  {
  }

  /** A database request carries one bit per selected topology and the
      persist bit exactly when asked, and no source-selection bit. */
  lemma DatabaseFlags(sdc: Sdc)
    requires sdc.config.Database?
    ensures TopologyInternal in Flags(sdc) <==> sdc.config.topologies.internal
    ensures TopologyClone in Flags(sdc) <==> sdc.config.topologies.clone
    ensures TopologyExtend in Flags(sdc) <==> sdc.config.topologies.extend
    ensures TopologyExternal in Flags(sdc) <==> sdc.config.topologies.external
    ensures PathPersistIfRequired in Flags(sdc) <==> sdc.config.pathPersistIfRequired
    ensures Flags(sdc) !! {UseSuppliedDisplayConfig, ForceModeEnumeration, SaveToDatabase,
                          TopologySupplied, AllowPathOrderChanges}
  {
  }

  /** The allow-changes bit follows `allowChanges` alone, whatever the action
      and the configuration source. */
  lemma AllowChangesFlag(sdc: Sdc, action: SdcAction, config: SdcConfig)
    requires ForceModeEnumerationAllowed(sdc)
    requires ForceModeEnumerationAllowed(sdc.(action := action, config := config))
    ensures AllowChanges in Flags(sdc) <==> sdc.allowChanges
    ensures AllowChanges in Flags(sdc) <==> AllowChanges in Flags(sdc.(action := action, config := config))
  {
  }

  /** The default request applies the database's current configuration: the
      apply bit and all four topology bits (SDC_USE_DATABASE_CURRENT), with
      empty buffers. */
  lemma DefaultFlags()
    ensures Flags(DefaultSdc) == {Flag.Apply, TopologyInternal, TopologyClone, TopologyExtend, TopologyExternal}
    ensures Encode(Flags(DefaultSdc)) == 0x0000_008F
    ensures Paths(DefaultSdc) == [] && Modes(DefaultSdc) == []
  {
    var fs := {Flag.Apply, TopologyInternal, TopologyClone, TopologyExtend, TopologyExternal};
    assert Flags(DefaultSdc) == fs;
    EncodeBits(fs);
  }

  /** The buffers forwarded agree with the flags: supplied paths go out only
      when the flags say the caller supplies a configuration or a topology,
      supplied modes only with a supplied configuration, and a database
      request forwards nothing. */
  lemma BuffersFollowFlags(sdc: Sdc)
    requires ForceModeEnumerationAllowed(sdc)
    ensures UseSuppliedDisplayConfig in Flags(sdc) ==>
      Paths(sdc) == sdc.config.paths && Modes(sdc) == sdc.config.modes
    ensures TopologySupplied in Flags(sdc) ==>
      Paths(sdc) == sdc.config.paths && Modes(sdc) == []
    ensures Paths(sdc) != [] ==> UseSuppliedDisplayConfig in Flags(sdc) || TopologySupplied in Flags(sdc)
    ensures Modes(sdc) != [] ==> UseSuppliedDisplayConfig in Flags(sdc)
    ensures sdc.config.Database? ==> Paths(sdc) == [] && Modes(sdc) == []
  {
  }
}
