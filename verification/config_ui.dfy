/** The settings overlay: three tabs of fields over a working copy of the
    configuration, keyboard navigation between them, toggles and sliders
    that edit the copy (sliders clamped to their ranges), Save and Cancel,
    and the character grid the overlay draws over the terminal. */
module ConfigUi {
  import opened Wrappers
  import opened Ints
  import opened Text
  import opened Quads
  import Renderer

  // ---------------------------------------------------------------------
  // Tabs

  datatype ConfigTab = Effects | Appearance | Behavior

  /** The tabs in the order the tab bar lists them. */
  const TABS: seq<ConfigTab> := [Effects, Appearance, Behavior]

  /** A tab's position in `TABS`. */
  function TabIndex(t: ConfigTab): (i: nat)
    ensures i < |TABS| && TABS[i] == t
  {
    match t
    case Effects => 0
    case Appearance => 1
    case Behavior => 2
  }

  function TabLabel(t: ConfigTab): string {
    match t
    case Effects => "Effects"
    case Appearance => "Appearance"
    case Behavior => "Behavior"
  }

  /** The tab `next_tab` moves to: the following one, wrapping around. */
  function TabAfter(t: ConfigTab): ConfigTab {
    TABS[(TabIndex(t) + 1) % |TABS|]
  }

  /** The tab `prev_tab` moves to: the preceding one, wrapping around. */
  function TabBefore(t: ConfigTab): ConfigTab {
    var i := TabIndex(t);
    TABS[if i == 0 then |TABS| - 1 else i - 1]
  }

  /** Moving back undoes moving forward and the other way round; three
      moves forward visit every tab and come back. */
  lemma TabCycle(t: ConfigTab)
    ensures TabBefore(TabAfter(t)) == t && TabAfter(TabBefore(t)) == t
    ensures TabAfter(TabAfter(TabAfter(t))) == t
    ensures {t, TabAfter(t), TabAfter(TabAfter(t))} == set u: ConfigTab | u in TABS
  {
    assert TABS == [Effects, Appearance, Behavior];
  }

  // ---------------------------------------------------------------------
  // Fields

  datatype ConfigField =
    | Curvature | Scanlines | ScanlineMode | Bloom | BurnIn | StaticNoise | Flicker | Vignette
    | Brightness | PerPaneCrt | FocusGlowRadius | FocusGlowWidth | FocusGlowIntensity
    | BezelEnabled | ContentScaleX | ContentScaleY | BeamSimulation | Interlace
    | FontType | FontFamily | FontSize | BdfFontFamily | ColorSchemeField
    | AutoCopySelection | ShowStartupHint | Save | Cancel

  /** Every field in the order the tabs list them, which is not the order
      of declaration: Per-pane CRT comes after the three glow fields. */
  const ALL_FIELDS: seq<ConfigField> :=
    [Curvature, Scanlines, ScanlineMode, Bloom, BurnIn, StaticNoise, Flicker, Vignette,
     Brightness, FocusGlowRadius, FocusGlowWidth, FocusGlowIntensity, PerPaneCrt,
     BezelEnabled, ContentScaleX, ContentScaleY, BeamSimulation, Interlace,
     FontType, FontFamily, FontSize, BdfFontFamily, ColorSchemeField,
     AutoCopySelection, ShowStartupHint, Save, Cancel]

  /** A field's position in `ALL_FIELDS`. */
  function Ord(f: ConfigField): nat {
    match f
    case Curvature => 0
    case Scanlines => 1
    case ScanlineMode => 2
    case Bloom => 3
    case BurnIn => 4
    case StaticNoise => 5
    case Flicker => 6
    case Vignette => 7
    case Brightness => 8
    case FocusGlowRadius => 9
    case FocusGlowWidth => 10
    case FocusGlowIntensity => 11
    case PerPaneCrt => 12
    case BezelEnabled => 13
    case ContentScaleX => 14
    case ContentScaleY => 15
    case BeamSimulation => 16
    case Interlace => 17
    case FontType => 18
    case FontFamily => 19
    case FontSize => 20
    case BdfFontFamily => 21
    case ColorSchemeField => 22
    case AutoCopySelection => 23
    case ShowStartupHint => 24
    case Save => 25
    case Cancel => 26
  }

  /** Fields in strictly increasing list order (so also without repeats). */
  predicate Increasing(xs: seq<ConfigField>) {
    forall i, j :: 0 <= i < j < |xs| ==> Ord(xs[i]) < Ord(xs[j])
  }

  /** A blank line is drawn above these fields. */
  predicate HasSeparatorBefore(f: ConfigField) {
    f == PerPaneCrt || f == BezelEnabled || f == BeamSimulation
  }

  function Label(f: ConfigField): string {
    match f
    case Curvature => "Curvature"
    case Scanlines => "Scanlines"
    case ScanlineMode => "Scanline Type"
    case Bloom => "Bloom"
    case BurnIn => "Burn-in"
    case StaticNoise => "Static"
    case Flicker => "Flicker"
    case Vignette => "Vignette"
    case Brightness => "Brightness"
    case PerPaneCrt => "Per-pane CRT"
    case FocusGlowRadius => "Glow Radius"
    case FocusGlowWidth => "Glow Width"
    case FocusGlowIntensity => "Glow Bright"
    case BezelEnabled => "Bezel"
    case ContentScaleX => "H-Size"
    case ContentScaleY => "V-Size"
    case BeamSimulation => "Beam Sim"
    case Interlace => "Interlace"
    case FontType => "Font Type"
    case FontFamily => "TTF Font"
    case FontSize => "Font Size"
    case BdfFontFamily => "BDF Font"
    case ColorSchemeField => "Colors"
    case AutoCopySelection => "Auto-copy"
    case ShowStartupHint => "Startup hint"
    case Save => "[ Save ]"
    case Cancel => "[ Cancel ]"
  }

  predicate IsSlider(f: ConfigField) {
    f in {Curvature, Scanlines, Bloom, BurnIn, StaticNoise, Flicker, Vignette, Brightness,
          FocusGlowRadius, FocusGlowWidth, FocusGlowIntensity, ContentScaleX, ContentScaleY, FontSize}
  }

  predicate IsToggle(f: ConfigField) {
    f in {PerPaneCrt, BezelEnabled, AutoCopySelection, ShowStartupHint, FontType,
          ScanlineMode, BeamSimulation, Interlace}
  }

  predicate IsSelector(f: ConfigField) {
    f in {FontFamily, BdfFontFamily, ColorSchemeField}
  }

  predicate IsButton(f: ConfigField) {
    f == Save || f == Cancel
  }

  /** The tab a field belongs to; the two buttons are on every tab. */
  function TabOf(f: ConfigField): Option<ConfigTab> {
    if Ord(f) < 18 then Some(Effects)
    else if Ord(f) < 23 then Some(Appearance)
    else if Ord(f) < 25 then Some(Behavior)
    else None
  }

  /** Every field is of exactly one kind, and the buttons are exactly the
      fields without a tab. */
  lemma FieldKinds(f: ConfigField)
    ensures (if IsSlider(f) then 1 else 0) + (if IsToggle(f) then 1 else 0)
            + (if IsSelector(f) then 1 else 0) + (if IsButton(f) then 1 else 0) == 1
    ensures IsButton(f) <==> TabOf(f).None?
  {
    match f
    case Curvature =>
    case Scanlines =>
    case ScanlineMode =>
    case Bloom =>
    case BurnIn =>
    case StaticNoise =>
    case Flicker =>
    case Vignette =>
    case Brightness =>
    case PerPaneCrt =>
    case FocusGlowRadius =>
    case FocusGlowWidth =>
    case FocusGlowIntensity =>
    case BezelEnabled =>
    case ContentScaleX =>
    case ContentScaleY =>
    case BeamSimulation =>
    case Interlace =>
    case FontType =>
    case FontFamily =>
    case FontSize =>
    case BdfFontFamily =>
    case ColorSchemeField =>
    case AutoCopySelection =>
    case ShowStartupHint =>
    case Save =>
    case Cancel =>
  }

  // ---------------------------------------------------------------------
  // The configuration the overlay edits

  datatype ScanlineStyle = RowBased | Pixel

  datatype EffectSettings = EffectSettings(
    screenCurvature: real,
    scanlineIntensity: real,
    scanlineMode: ScanlineStyle,
    bloom: real,
    burnIn: real,
    staticNoise: real,
    flicker: real,
    vignette: real,
    brightness: real,
    focusGlowRadius: real,
    focusGlowWidth: real,
    focusGlowIntensity: real,
    bezelEnabled: bool,
    contentScaleX: real,
    contentScaleY: real,
    beamSimulationEnabled: bool,
    interlaceEnabled: bool)

  datatype BehaviorSettings = BehaviorSettings(autoCopySelection: bool, showStartupHint: bool)

  /** The sixteen ANSI colours of a scheme. */
  type Palette = s: seq<Rgba> | |s| == 16 witness seq(16, _ => Rgba(0.0, 0.0, 0.0, 0.0))

  datatype ColorScheme = ColorScheme(name: string, foreground: Rgba, colors: Palette)

  /** The settings the overlay reads and writes. Fonts are identified by
      their position in the font lists of the `Catalog`. */
  datatype Config = Config(
    effects: EffectSettings,
    perPaneCrt: bool,
    font: nat,
    fontSize: real,
    bdfFont: Option<nat>,
    colorScheme: ColorScheme,
    behavior: BehaviorSettings)

  /** What the overlay takes from the rest of the program: stepping through
      the TrueType and BDF font lists and their labels, the default BDF
      font, the colour-scheme presets, and fixed-point float formatting
      (`format!("{:.N}", v)` as `fixed(v, N)`). */
  datatype Catalog = Catalog(
    fontNext: nat -> nat,
    fontPrev: nat -> nat,
    fontLabel: nat -> string,
    bdfNext: nat -> nat,
    bdfPrev: nat -> nat,
    bdfLabel: nat -> string,
    fixed9x18: nat,
    presets: seq<ColorScheme>,
    fixed: (real, nat) -> string)

  // ---------------------------------------------------------------------
  // Which fields a tab lists

  /** The TrueType fields show only without a BDF font, the BDF font field
      only with one, and Interlace only while beam simulation is on. */
  predicate ShouldShow(f: ConfigField, c: Config) {
    match f
    case FontFamily => c.bdfFont.None?
    case FontSize => c.bdfFont.None?
    case BdfFontFamily => c.bdfFont.Some?
    case Interlace => c.effects.beamSimulationEnabled
    case _ => true
  }

  predicate Visible(f: ConfigField, tab: ConfigTab, c: Config) {
    TabOf(f) == Some(tab) && ShouldShow(f, c)
  }

  /** The fields of `xs` that `tab` shows under `c`, in their order: the
      filter `fields_for_tab` runs over `ConfigField::all()`. */
  function VisibleIn(xs: seq<ConfigField>, tab: ConfigTab, c: Config): seq<ConfigField> {
    if xs == [] then []
    else if Visible(xs[0], tab, c) then [xs[0]] + VisibleIn(xs[1..], tab, c)
    else VisibleIn(xs[1..], tab, c)
  }

  /** Every field is listed, at the position its rank says. */
  lemma OrdOfAll()
    ensures forall f :: Ord(f) < |ALL_FIELDS| && ALL_FIELDS[Ord(f)] == f
    ensures forall i :: 0 <= i < |ALL_FIELDS| ==> Ord(ALL_FIELDS[i]) == i
  {
    OrdOfEntries();
    forall f
      ensures Ord(f) < |ALL_FIELDS| && ALL_FIELDS[Ord(f)] == f
    {
    }
  }

  lemma OrdOfEntries()
    ensures forall i :: 0 <= i < |ALL_FIELDS| ==> Ord(ALL_FIELDS[i]) == i
  {
    forall i | 0 <= i < |ALL_FIELDS|
      ensures Ord(ALL_FIELDS[i]) == i
    {
    }
  }

  /** The filter keeps exactly the shown fields. */
  lemma {:induction false} VisibleInMembers(xs: seq<ConfigField>, tab: ConfigTab, c: Config)
    ensures forall f :: f in VisibleIn(xs, tab, c) <==> f in xs && Visible(f, tab, c)
  {
    if xs != [] {
      VisibleInMembers(xs[1..], tab, c);
      assert forall f :: f in xs <==> f == xs[0] || f in xs[1..];
    }
  }

  /** The filter keeps list order. */
  lemma {:induction false} VisibleInIncreasing(xs: seq<ConfigField>, tab: ConfigTab, c: Config)
    requires Increasing(xs)
    ensures Increasing(VisibleIn(xs, tab, c))
  {
    if xs != [] {
      var rest := VisibleIn(xs[1..], tab, c);
      VisibleInIncreasing(xs[1..], tab, c);
      VisibleInMembers(xs[1..], tab, c);
      forall f | f in rest
        ensures Ord(xs[0]) < Ord(f)
      {
        var j :| 0 <= j < |xs[1..]| && xs[1..][j] == f;
        assert xs[j + 1] == f;
      }
    }
  }

  /** `fields_for_tab`. */
  function FieldsForTab(tab: ConfigTab, c: Config): seq<ConfigField> {
    VisibleIn(ALL_FIELDS, tab, c) + [Save, Cancel]
  }

  /** A tab lists its visible fields, each once and in list order, then
      Save and Cancel. */
  lemma FieldsForTabSpec(tab: ConfigTab, c: Config)
    ensures var r := FieldsForTab(tab, c);
            && |r| >= 2 && r[|r| - 2] == Save && r[|r| - 1] == Cancel
            && (forall i :: 0 <= i < |r| - 2 ==> Visible(r[i], tab, c))
            && (forall f :: Visible(f, tab, c) ==> f in r[..|r| - 2])
            && Increasing(r[..|r| - 2])
  {
    AllFieldsInOrder();
    ShownThenButtons(ALL_FIELDS, tab, c);
  }

  /** The field list holds every field once, in rank order. */
  lemma AllFieldsInOrder()
    ensures Increasing(ALL_FIELDS)
    ensures forall f :: f in ALL_FIELDS
  {
    OrdOfAll();
    forall f
      ensures f in ALL_FIELDS
    {
      assert ALL_FIELDS[Ord(f)] == f;
    }
  }

  /** Filtering a list of all fields in rank order and appending the
      buttons gives the shown fields, in order, then Save and Cancel. */
  lemma ShownThenButtons(xs: seq<ConfigField>, tab: ConfigTab, c: Config)
    requires Increasing(xs) && forall f :: f in xs
    ensures var r := VisibleIn(xs, tab, c) + [Save, Cancel];
            && |r| >= 2 && r[|r| - 2] == Save && r[|r| - 1] == Cancel
            && (forall i :: 0 <= i < |r| - 2 ==> Visible(r[i], tab, c))
            && (forall f :: Visible(f, tab, c) ==> f in r[..|r| - 2])
            && Increasing(r[..|r| - 2])
  {
    var shown := VisibleIn(xs, tab, c);
    VisibleInIncreasing(xs, tab, c);
    VisibleInMembers(xs, tab, c);
    assert forall i :: 0 <= i < |shown| ==> shown[i] in shown;
    assert (shown + [Save, Cancel])[..|shown|] == shown;
  }

  /** A field is listed on a tab exactly when the tab shows it or it is
      one of the buttons. */
  lemma Listed(tab: ConfigTab, c: Config, f: ConfigField)
    ensures f in FieldsForTab(tab, c) <==> Visible(f, tab, c) || IsButton(f)
  {
    AllListed(f);
    ListedIn(ALL_FIELDS, tab, c, f);
  }

  lemma ListedIn(all: seq<ConfigField>, tab: ConfigTab, c: Config, f: ConfigField)
    requires f in all
    ensures f in VisibleIn(all, tab, c) + [Save, Cancel] <==> Visible(f, tab, c) || IsButton(f)
  {
    VisibleInMembers(all, tab, c);
    var shown := VisibleIn(all, tab, c);
    assert f in shown + [Save, Cancel] <==> f in shown || f == Save || f == Cancel;
    if IsButton(f) {
      assert TabOf(f) == None;
    }
  }

  lemma AllListed(f: ConfigField)
    ensures f in ALL_FIELDS
  {
    OrdOfAll();
    assert ALL_FIELDS[Ord(f)] == f;
  }

  /** The TrueType font and size are listed exactly without a BDF font, the
      BDF font exactly with one, Interlace exactly with beam simulation on. */
  lemma VisibilityRules(c: Config)
    ensures FontFamily in FieldsForTab(Appearance, c) <==> c.bdfFont.None?
    ensures FontSize in FieldsForTab(Appearance, c) <==> c.bdfFont.None?
    ensures BdfFontFamily in FieldsForTab(Appearance, c) <==> c.bdfFont.Some?
    ensures Interlace in FieldsForTab(Effects, c) <==> c.effects.beamSimulationEnabled
  {
    Listed(Appearance, c, FontFamily);
    Listed(Appearance, c, FontSize);
    Listed(Appearance, c, BdfFontFamily);
    Listed(Effects, c, Interlace);
  }

  // ---------------------------------------------------------------------
  // What a field shows and edits

  /** The setting behind a field, as one value. */
  datatype Value =
    | Flag(on: bool)
    | Amount(x: real)
    | Style(style: ScanlineStyle)
    | FontId(id: nat)
    | MaybeFont(bdf: Option<nat>)
    | Scheme(scheme: ColorScheme)
    | NoValue

  function ValueOf(c: Config, f: ConfigField): Value {
    match f
    case Curvature => Amount(c.effects.screenCurvature)
    case Scanlines => Amount(c.effects.scanlineIntensity)
    case ScanlineMode => Style(c.effects.scanlineMode)
    case Bloom => Amount(c.effects.bloom)
    case BurnIn => Amount(c.effects.burnIn)
    case StaticNoise => Amount(c.effects.staticNoise)
    case Flicker => Amount(c.effects.flicker)
    case Vignette => Amount(c.effects.vignette)
    case Brightness => Amount(c.effects.brightness)
    case PerPaneCrt => Flag(c.perPaneCrt)
    case FocusGlowRadius => Amount(c.effects.focusGlowRadius)
    case FocusGlowWidth => Amount(c.effects.focusGlowWidth)
    case FocusGlowIntensity => Amount(c.effects.focusGlowIntensity)
    case BezelEnabled => Flag(c.effects.bezelEnabled)
    case ContentScaleX => Amount(c.effects.contentScaleX)
    case ContentScaleY => Amount(c.effects.contentScaleY)
    case BeamSimulation => Flag(c.effects.beamSimulationEnabled)
    case Interlace => Flag(c.effects.interlaceEnabled)
    case FontType => Flag(c.bdfFont.Some?)
    case FontFamily => FontId(c.font)
    case FontSize => Amount(c.fontSize)
    case BdfFontFamily => MaybeFont(c.bdfFont)
    case ColorSchemeField => Scheme(c.colorScheme)
    case AutoCopySelection => Flag(c.behavior.autoCopySelection)
    case ShowStartupHint => Flag(c.behavior.showStartupHint)
    case Save => NoValue
    case Cancel => NoValue
  }

  /** The fields cover the whole configuration: two configurations that
      agree on every field are equal. */
  lemma ValuesDetermine(c1: Config, c2: Config)
    requires forall f :: ValueOf(c1, f) == ValueOf(c2, f)
    ensures c1 == c2
  {
    EffectsDetermine(c1, c2);
    var p, ff, fs, bf, cs, ac, sh :=
      ValueOf(c1, PerPaneCrt), ValueOf(c1, FontFamily), ValueOf(c1, FontSize), ValueOf(c1, BdfFontFamily),
      ValueOf(c1, ColorSchemeField), ValueOf(c1, AutoCopySelection), ValueOf(c1, ShowStartupHint);
    assert p == ValueOf(c2, PerPaneCrt) && ff == ValueOf(c2, FontFamily) && fs == ValueOf(c2, FontSize);
    assert bf == ValueOf(c2, BdfFontFamily) && cs == ValueOf(c2, ColorSchemeField);
    assert ac == ValueOf(c2, AutoCopySelection) && sh == ValueOf(c2, ShowStartupHint);
  }

  lemma EffectsDetermine(c1: Config, c2: Config)
    requires forall f :: ValueOf(c1, f) == ValueOf(c2, f)
    ensures c1.effects == c2.effects
  {
    var e1, e2 := c1.effects, c2.effects;
    assert ValueOf(c1, Curvature) == ValueOf(c2, Curvature);
    assert ValueOf(c1, Scanlines) == ValueOf(c2, Scanlines);
    assert ValueOf(c1, ScanlineMode) == ValueOf(c2, ScanlineMode);
    assert ValueOf(c1, Bloom) == ValueOf(c2, Bloom);
    assert ValueOf(c1, BurnIn) == ValueOf(c2, BurnIn);
    assert ValueOf(c1, StaticNoise) == ValueOf(c2, StaticNoise);
    assert ValueOf(c1, Flicker) == ValueOf(c2, Flicker);
    assert ValueOf(c1, Vignette) == ValueOf(c2, Vignette);
    assert ValueOf(c1, Brightness) == ValueOf(c2, Brightness);
    assert ValueOf(c1, FocusGlowRadius) == ValueOf(c2, FocusGlowRadius);
    assert ValueOf(c1, FocusGlowWidth) == ValueOf(c2, FocusGlowWidth);
    assert ValueOf(c1, FocusGlowIntensity) == ValueOf(c2, FocusGlowIntensity);
    assert ValueOf(c1, BezelEnabled) == ValueOf(c2, BezelEnabled);
    assert ValueOf(c1, ContentScaleX) == ValueOf(c2, ContentScaleX);
    assert ValueOf(c1, ContentScaleY) == ValueOf(c2, ContentScaleY);
    assert ValueOf(c1, BeamSimulation) == ValueOf(c2, BeamSimulation);
    assert ValueOf(c1, Interlace) == ValueOf(c2, Interlace);
  }

  // ---------------------------------------------------------------------
  // Toggling and activating

  datatype ConfigAction = SaveAction | CancelAction

  function FlipStyle(s: ScanlineStyle): ScanlineStyle {
    match s
    case RowBased => Pixel
    case Pixel => RowBased
  }

  /** The configuration after Enter on a field: the boolean switches flip,
      the font type switches between TrueType and the default BDF font,
      the scanline style alternates; other fields change nothing. */
  function Toggled(c: Config, f: ConfigField, cat: Catalog): Config {
    match f
    case PerPaneCrt => c.(perPaneCrt := !c.perPaneCrt)
    case BezelEnabled => c.(effects := c.effects.(bezelEnabled := !c.effects.bezelEnabled))
    case AutoCopySelection =>
      c.(behavior := c.behavior.(autoCopySelection := !c.behavior.autoCopySelection))
    case ShowStartupHint =>
      c.(behavior := c.behavior.(showStartupHint := !c.behavior.showStartupHint))
    case FontType => c.(bdfFont := if c.bdfFont.Some? then None else Some(cat.fixed9x18))
    case ScanlineMode => c.(effects := c.effects.(scanlineMode := FlipStyle(c.effects.scanlineMode)))
    case BeamSimulation =>
      c.(effects := c.effects.(beamSimulationEnabled := !c.effects.beamSimulationEnabled))
    case Interlace => c.(effects := c.effects.(interlaceEnabled := !c.effects.interlaceEnabled))
    case _ => c
  }

  /** The action Enter reports: only the two buttons report one. */
  function ActionOf(f: ConfigField): (a: Option<ConfigAction>)
    ensures a.Some? <==> IsButton(f)
    ensures a == Some(SaveAction) <==> f == Save
  {
    if f == Save then Some(SaveAction)
    else if f == Cancel then Some(CancelAction)
    else None
  }

  /** `toggle_or_activate` on the values: nothing happens when the
      selection is past the end of the list. */
  function Activate(c: Config, tab: ConfigTab, selected: nat, cat: Catalog): (Config, Option<ConfigAction>) {
    var fields := FieldsForTab(tab, c);
    if selected >= |fields| then (c, None)
    else (Toggled(c, fields[selected], cat), ActionOf(fields[selected]))
  }

  /** Enter flips a switch (the font type between TrueType and BDF),
      alternates the scanline style, and leaves the configuration alone on
      a field that is not a toggle. */
  lemma ToggleSets(c: Config, f: ConfigField, cat: Catalog)
    ensures !IsToggle(f) ==> Toggled(c, f, cat) == c
    ensures IsToggle(f) && f != ScanlineMode ==> ValueOf(Toggled(c, f, cat), f) == Flag(!ValueOf(c, f).on)
    ensures f == ScanlineMode ==> ValueOf(Toggled(c, f, cat), f) != ValueOf(c, f)
  {
  }

  /** Enter changes no field but its own (the font type also sets the BDF
      font). */
  lemma ToggleChangesOnlyItsField(c: Config, f: ConfigField, cat: Catalog, g: ConfigField)
    requires g != f && !(f == FontType && g == BdfFontFamily)
    ensures ValueOf(Toggled(c, f, cat), g) == ValueOf(c, g)
  {
  }

  /** Toggling twice restores the configuration, except that turning BDF
      off and on again picks the default BDF font. */
  lemma ToggleTwice(c: Config, f: ConfigField, cat: Catalog)
    ensures f != FontType ==> Toggled(Toggled(c, f, cat), f, cat) == c
    ensures Toggled(Toggled(c, f, cat), f, cat).bdfFont.Some? == c.bdfFont.Some?
    ensures c.bdfFont != Some(cat.fixed9x18) && c.bdfFont.Some?
            ==> Toggled(Toggled(c, FontType, cat), FontType, cat) != c
    ensures c.bdfFont.None? || c.bdfFont == Some(cat.fixed9x18)
            ==> Toggled(Toggled(c, FontType, cat), FontType, cat) == c
  {
  }

  /** A toggle changes the visibility of later fields only: the font type
      governs the font fields after it, beam simulation governs Interlace
      right after it. */
  lemma ToggleKeepsEarlierFields(c: Config, f: ConfigField, cat: Catalog, g: ConfigField)
    requires Ord(g) <= Ord(f)
    ensures ShouldShow(g, Toggled(c, f, cat)) == ShouldShow(g, c)
  {
  }

  /** When the fields up to `VisibleIn(xs, tab, c)[i]` keep their
      visibility, the filter still puts that field at position `i`. */
  lemma {:induction false} KeepsPosition(xs: seq<ConfigField>, tab: ConfigTab, c: Config, c2: Config, i: nat)
    requires Increasing(xs)
    requires i < |VisibleIn(xs, tab, c)|
    requires forall g :: Ord(g) <= Ord(VisibleIn(xs, tab, c)[i]) ==> (Visible(g, tab, c) <==> Visible(g, tab, c2))
    ensures i < |VisibleIn(xs, tab, c2)| && VisibleIn(xs, tab, c2)[i] == VisibleIn(xs, tab, c)[i]
  {
    var f := VisibleIn(xs, tab, c)[i];
    VisibleInMembers(xs, tab, c);
    assert f in VisibleIn(xs, tab, c);
    var j :| 0 <= j < |xs| && xs[j] == f;
    assert Ord(xs[0]) <= Ord(f);
    if Visible(xs[0], tab, c) {
      if i > 0 {
        KeepsPosition(xs[1..], tab, c, c2, i - 1);
      }
    } else {
      KeepsPosition(xs[1..], tab, c, c2, i);
    }
  }

  /** The filter depends only on the visibility of the fields it sees. */
  lemma {:induction false} VisibleInSame(xs: seq<ConfigField>, tab: ConfigTab, c: Config, c2: Config)
    requires forall i :: 0 <= i < |xs| ==> (Visible(xs[i], tab, c) <==> Visible(xs[i], tab, c2))
    ensures VisibleIn(xs, tab, c) == VisibleIn(xs, tab, c2)
  {
    if xs != [] {
      assert Visible(xs[0], tab, c) <==> Visible(xs[0], tab, c2);
      VisibleInSame(xs[1..], tab, c, c2);
    }
  }

  /** A change of configuration that keeps the visibility of every field
      up to the one on row `selected` keeps that field on that row. */
  lemma SameRow(tab: ConfigTab, c: Config, c2: Config, selected: nat)
    requires selected < |FieldsForTab(tab, c)|
    requires forall g :: Ord(g) <= Ord(FieldsForTab(tab, c)[selected]) ==> ShouldShow(g, c) == ShouldShow(g, c2)
    ensures selected < |FieldsForTab(tab, c2)| && FieldsForTab(tab, c2)[selected] == FieldsForTab(tab, c)[selected]
  {
    var f := FieldsForTab(tab, c)[selected];
    var shown := VisibleIn(ALL_FIELDS, tab, c);
    if selected < |shown| {
      assert f == shown[selected];
      forall g | Ord(g) <= Ord(shown[selected])
        ensures Visible(g, tab, c) <==> Visible(g, tab, c2)
      {
      }
      OrdOfAll();
      KeepsPosition(ALL_FIELDS, tab, c, c2, selected);
    } else {
      FieldsForTabSpec(tab, c);
      assert Ord(Save) <= Ord(f);
      SameShown(tab, c, c2);
    }
  }

  /** The shown fields depend only on the visibility of the fields before
      the buttons. */
  lemma SameShown(tab: ConfigTab, c: Config, c2: Config)
    requires forall g :: Ord(g) <= Ord(Save) ==> ShouldShow(g, c) == ShouldShow(g, c2)
    ensures VisibleIn(ALL_FIELDS, tab, c) == VisibleIn(ALL_FIELDS, tab, c2)
  {
    forall i | 0 <= i < |ALL_FIELDS|
      ensures Visible(ALL_FIELDS[i], tab, c) <==> Visible(ALL_FIELDS[i], tab, c2)
    {
      FieldKinds(ALL_FIELDS[i]);
    }
    VisibleInSame(ALL_FIELDS, tab, c, c2);
  }

  /** Enter keeps the selected field on its row. */
  lemma ToggleKeepsRow(c: Config, tab: ConfigTab, selected: nat, cat: Catalog)
    requires selected < |FieldsForTab(tab, c)|
    ensures var f := FieldsForTab(tab, c)[selected];
            selected < |FieldsForTab(tab, Toggled(c, f, cat))| && FieldsForTab(tab, Toggled(c, f, cat))[selected] == f
  {
    var f := FieldsForTab(tab, c)[selected];
    forall g | Ord(g) <= Ord(f)
      ensures ShouldShow(g, c) == ShouldShow(g, Toggled(c, f, cat))
    {
      ToggleKeepsEarlierFields(c, f, cat, g);
    }
    SameRow(tab, c, Toggled(c, f, cat), selected);
  }

  /** Pressing Enter twice on the same row undoes the first press (up to
      the BDF font choice), because the toggled field keeps its row. */
  lemma ActivateTwice(c: Config, tab: ConfigTab, selected: nat, cat: Catalog)
    requires selected < |FieldsForTab(tab, c)|
    requires c.bdfFont.None? || c.bdfFont == Some(cat.fixed9x18) || FieldsForTab(tab, c)[selected] != FontType
    ensures var (c1, a1) := Activate(c, tab, selected, cat);
            Activate(c1, tab, selected, cat) == (c, a1)
  {
    ToggleKeepsRow(c, tab, selected, cat);
    ToggleTwice(c, FieldsForTab(tab, c)[selected], cat);
  }

  /** Enter reports an action exactly on the buttons, and changes the
      configuration only on a toggle. */
  lemma ActivateResult(c: Config, tab: ConfigTab, selected: nat, cat: Catalog)
    ensures var (c1, a) := Activate(c, tab, selected, cat);
            && (a.Some? <==> selected < |FieldsForTab(tab, c)| && IsButton(FieldsForTab(tab, c)[selected]))
            && (c1 != c ==> selected < |FieldsForTab(tab, c)| && IsToggle(FieldsForTab(tab, c)[selected]))
  {
    var fields := FieldsForTab(tab, c);
    if selected < |fields| {
      ToggleSets(c, fields[selected], cat);
    }
  }

  // ---------------------------------------------------------------------
  // Moving the selection

  /** `move_up`: one row up, stopping at the first row. */
  function MovedUp(selected: nat): nat {
    if selected > 0 then selected - 1 else selected
  }

  /** `move_down`: one row down, stopping at the last of `n` rows. */
  function MovedDown(selected: nat, n: nat): nat {
    if selected < SatSub(n, 1) then selected + 1 else selected
  }

  /** Moving keeps a selection on the list, moves by at most one row, stops
      only at the ends, and moving down then up returns. */
  lemma MoveBounds(selected: nat, n: nat)
    requires n >= 1
    ensures selected < n ==> MovedDown(selected, n) < n && MovedUp(selected) < n
    ensures MovedUp(selected) == selected <==> selected == 0
    ensures MovedDown(selected, n) == selected <==> selected >= n - 1
    ensures selected < n - 1 ==> MovedUp(MovedDown(selected, n)) == selected
    ensures 0 < selected < n ==> MovedDown(MovedUp(selected), n) == selected
  {
  }

  // ---------------------------------------------------------------------
  // Adjusting a field with the arrow keys

  /** `f32::clamp`. */
  function Clamp(x: real, lo: real, hi: real): (r: real)
    requires lo <= hi
    ensures lo <= r <= hi
    ensures lo <= x <= hi ==> r == x
  {
    if x < lo then lo else if x > hi then hi else x
  }

  /** The slider step: a hundredth up or down. */
  function Nudge(delta: real): real {
    if delta > 0.0 then 0.01 else -0.01
  }

  /** The glow sliders step by a quarter of a hundredth up to 0.02 and by a
      hundredth above. */
  function GlowNudge(v: real, delta: real): real {
    var increment := if v <= 0.02 then 0.0025 else 0.01;
    if delta > 0.0 then increment else -increment
  }

  /** A slider's range. */
  function SliderRange(f: ConfigField): (r: (real, real))
    requires IsSlider(f)
    ensures r.0 < r.1
  {
    match f
    case Curvature => (0.0, 0.5)
    case Scanlines => (0.0, 1.0)
    case Bloom => (0.0, 1.0)
    case BurnIn => (0.0, 1.0)
    case StaticNoise => (0.0, 0.5)
    case Flicker => (0.0, 0.5)
    case Vignette => (0.0, 1.0)
    case Brightness => (0.1, 2.0)
    case FocusGlowRadius => (0.0, 0.3)
    case FocusGlowWidth => (0.001, 0.3)
    case FocusGlowIntensity => (0.0, 1.0)
    case ContentScaleX => (0.8, 1.2)
    case ContentScaleY => (0.8, 1.2)
    case FontSize => (8.0, 32.0)
  }

  /** `Iterator::position`: the first preset named `name`, if any. */
  function Position(presets: seq<ColorScheme>, name: string): (r: Option<nat>)
    ensures r.Some? ==> r.value < |presets| && presets[r.value].name == name
    ensures r.Some? ==> forall j :: 0 <= j < r.value ==> presets[j].name != name
    ensures r.None? ==> forall j :: 0 <= j < |presets| ==> presets[j].name != name
  {
    if presets == [] then None
    else if presets[0].name == name then Some(0)
    else match Position(presets[1..], name)
      case Some(i) => Some(i + 1)
      case None => None
  }

  /** The position of the current scheme among the presets, the first
      preset when none has its name. */
  function PresetIndex(presets: seq<ColorScheme>, name: string): (i: nat)
    requires presets != []
    ensures i < |presets|
  {
    match Position(presets, name)
    case Some(i) => i
    case None => 0
  }

  /** The preset after (`up`) or before position `i` of `n`, wrapping
      around at both ends. */
  function StepIndex(i: nat, n: nat, up: bool): (j: nat)
    requires i < n
    ensures j < n
  {
    if up then (i + 1) % n else if i == 0 then n - 1 else i - 1
  }

  /** Stepping one way and back returns to the same position. */
  lemma StepBack(i: nat, n: nat)
    requires i < n
    ensures StepIndex(StepIndex(i, n, true), n, false) == i
    ensures StepIndex(StepIndex(i, n, false), n, true) == i
  {
    if i + 1 < n { assert (i + 1) % n == i + 1; } else { assert (i + 1) % n == 0; }
    if i == 0 { assert (n - 1 + 1) % n == 0; } else { assert (i - 1 + 1) % n == i; }
  }

  /** `adjust_field` on the values. */
  function Adjusted(c: Config, f: ConfigField, delta: real, cat: Catalog): Config
    requires cat.presets != []
  {
    var e := c.effects;
    var up := delta > 0.0;
    match f
    case Curvature => c.(effects := e.(screenCurvature := Clamp(e.screenCurvature + Nudge(delta), 0.0, 0.5)))
    case Scanlines => c.(effects := e.(scanlineIntensity := Clamp(e.scanlineIntensity + Nudge(delta), 0.0, 1.0)))
    case ScanlineMode => c.(effects := e.(scanlineMode := FlipStyle(e.scanlineMode)))
    case Bloom => c.(effects := e.(bloom := Clamp(e.bloom + Nudge(delta), 0.0, 1.0)))
    case BurnIn => c.(effects := e.(burnIn := Clamp(e.burnIn + Nudge(delta), 0.0, 1.0)))
    case StaticNoise => c.(effects := e.(staticNoise := Clamp(e.staticNoise + Nudge(delta), 0.0, 0.5)))
    case Flicker => c.(effects := e.(flicker := Clamp(e.flicker + Nudge(delta), 0.0, 0.5)))
    case Vignette => c.(effects := e.(vignette := Clamp(e.vignette + Nudge(delta), 0.0, 1.0)))
    case Brightness => c.(effects := e.(brightness := Clamp(e.brightness + Nudge(delta), 0.1, 2.0)))
    case PerPaneCrt => c.(perPaneCrt := up)
    case FocusGlowRadius =>
      c.(effects := e.(focusGlowRadius := Clamp(e.focusGlowRadius + GlowNudge(e.focusGlowRadius, delta), 0.0, 0.3)))
    case FocusGlowWidth =>
      c.(effects := e.(focusGlowWidth := Clamp(e.focusGlowWidth + GlowNudge(e.focusGlowWidth, delta), 0.001, 0.3)))
    case FocusGlowIntensity =>
      c.(effects := e.(focusGlowIntensity := Clamp(e.focusGlowIntensity + Nudge(delta), 0.0, 1.0)))
    case FontType => c.(bdfFont := if c.bdfFont.Some? then None else Some(cat.fixed9x18))
    case FontFamily => c.(font := if up then cat.fontNext(c.font) else cat.fontPrev(c.font))
    case FontSize => c.(fontSize := Clamp(c.fontSize + (if up then 1.0 else -1.0), 8.0, 32.0))
    case BdfFontFamily =>
      if c.bdfFont.Some? then
        c.(bdfFont := Some(if up then cat.bdfNext(c.bdfFont.value) else cat.bdfPrev(c.bdfFont.value)))
      else c
    case ColorSchemeField =>
      c.(colorScheme := cat.presets[StepIndex(PresetIndex(cat.presets, c.colorScheme.name), |cat.presets|, up)])
    case BezelEnabled => c.(effects := e.(bezelEnabled := up))
    case AutoCopySelection => c.(behavior := c.behavior.(autoCopySelection := up))
    case ShowStartupHint => c.(behavior := c.behavior.(showStartupHint := up))
    case ContentScaleX => c.(effects := e.(contentScaleX := Clamp(e.contentScaleX + Nudge(delta), 0.8, 1.2)))
    case ContentScaleY => c.(effects := e.(contentScaleY := Clamp(e.contentScaleY + Nudge(delta), 0.8, 1.2)))
    case BeamSimulation => c.(effects := e.(beamSimulationEnabled := up))
    case Interlace => c.(effects := e.(interlaceEnabled := up))
    case _ => c
  }

  /** A slider always lands inside its range, moves the way the arrow
      points, and moves whenever it is inside its range and not already at
      the end it is pushed towards. */
  lemma AdjustSlider(c: Config, f: ConfigField, delta: real, cat: Catalog)
    requires cat.presets != [] && IsSlider(f)
    ensures var (lo, hi) := SliderRange(f);
            var v, v' := ValueOf(c, f).x, ValueOf(Adjusted(c, f, delta, cat), f).x;
            && ValueOf(Adjusted(c, f, delta, cat), f).Amount?
            && lo <= v' <= hi
            && (lo <= v <= hi ==> (delta > 0.0 ==> v <= v') && (delta <= 0.0 ==> v' <= v))
            && (lo <= v <= hi && delta > 0.0 && v < hi ==> v < v')
            && (lo <= v <= hi && delta <= 0.0 && lo < v ==> v' < v)
  {
  }

  /** An arrow key sets a switch to on (right) or off (left), picks a
      preset for the colours and leaves the buttons alone. */
  lemma AdjustSets(c: Config, f: ConfigField, delta: real, cat: Catalog)
    requires cat.presets != []
    ensures f in {PerPaneCrt, BezelEnabled, AutoCopySelection, ShowStartupHint, BeamSimulation, Interlace}
            ==> ValueOf(Adjusted(c, f, delta, cat), f) == Flag(delta > 0.0)
    ensures f == ColorSchemeField ==> Adjusted(c, f, delta, cat).colorScheme in cat.presets
    ensures IsButton(f) ==> Adjusted(c, f, delta, cat) == c
  {
  }

  /** An arrow key changes no field but its own (the font type also sets
      the BDF font). */
  lemma AdjustChangesOnlyItsField(c: Config, f: ConfigField, delta: real, cat: Catalog, g: ConfigField)
    requires cat.presets != []
    requires g != f && !(f == FontType && g == BdfFontFamily)
    ensures ValueOf(Adjusted(c, f, delta, cat), g) == ValueOf(c, g)
  {
    if f == ColorSchemeField {
      assert Adjusted(c, f, delta, cat).(colorScheme := c.colorScheme) == c;
    } else if IsEffect(f) {
      AdjustKeepsOthersEffect(c, f, delta, cat, g);
    } else if f.FontType? || f.FontFamily? || f.FontSize? || f.BdfFontFamily? {
      AdjustKeepsOthersFont(c, f, delta, cat, g);
    } else {
      AdjustKeepsOthersSwitch(c, f, delta, cat, g);
    }
  }

  /** The fields kept in the effect settings. */
  predicate IsEffect(f: ConfigField) {
    !(f.PerPaneCrt? || f.FontType? || f.FontFamily? || f.FontSize? || f.BdfFontFamily? || f.ColorSchemeField?
      || f.AutoCopySelection? || f.ShowStartupHint? || f.Save? || f.Cancel?)
  }

  lemma AdjustKeepsOthersEffect(c: Config, f: ConfigField, delta: real, cat: Catalog, g: ConfigField)
    requires cat.presets != [] && IsEffect(f) && g != f
    ensures ValueOf(Adjusted(c, f, delta, cat), g) == ValueOf(c, g)
  {
    var c2 := Adjusted(c, f, delta, cat);
    if !IsEffect(g) {
      assert c2 == c.(effects := c2.effects);
      OutsideEffects(c, c2, g);
    }
  }

  lemma AdjustKeepsOthersFont(c: Config, f: ConfigField, delta: real, cat: Catalog, g: ConfigField)
    requires cat.presets != [] && (f.FontType? || f.FontFamily? || f.FontSize? || f.BdfFontFamily?)
    requires g != f && !(f == FontType && g == BdfFontFamily)
    ensures ValueOf(Adjusted(c, f, delta, cat), g) == ValueOf(c, g)
  {
    var c2 := Adjusted(c, f, delta, cat);
    if IsEffect(g) {
      InsideEffects(c, c2, g);
    }
  }

  lemma AdjustKeepsOthersSwitch(c: Config, f: ConfigField, delta: real, cat: Catalog, g: ConfigField)
    requires cat.presets != [] && (f.PerPaneCrt? || f.AutoCopySelection? || f.ShowStartupHint? || f.Save? || f.Cancel?)
    requires g != f
    ensures ValueOf(Adjusted(c, f, delta, cat), g) == ValueOf(c, g)
  {
    var c2 := Adjusted(c, f, delta, cat);
    if IsEffect(g) {
      InsideEffects(c, c2, g);
    }
  }


  /** An effect field's value lies in the effect settings alone. */
  lemma InsideEffects(c: Config, c2: Config, g: ConfigField)
    requires IsEffect(g) && c2.effects == c.effects
    ensures ValueOf(c2, g) == ValueOf(c, g)
  {
  }

  /** Any other field's value lies outside the effect settings. */
  lemma OutsideEffects(c: Config, c2: Config, g: ConfigField)
    requires !IsEffect(g) && c2 == c.(effects := c2.effects)
    ensures ValueOf(c2, g) == ValueOf(c, g)
  {
  }




  /** Left then right on the colours returns to the same preset when the
      current scheme is the preset at its position and the names are
      distinct. */
  lemma SchemeRoundTrip(c: Config, cat: Catalog, up: bool)
    requires cat.presets != []
    requires c.colorScheme == cat.presets[PresetIndex(cat.presets, c.colorScheme.name)]
    requires forall i, j :: 0 <= i < j < |cat.presets| ==> cat.presets[i].name != cat.presets[j].name
    ensures var there := if up then 0.05 else -0.05;
            Adjusted(Adjusted(c, ColorSchemeField, there, cat), ColorSchemeField, -there, cat) == c
  {
    var presets := cat.presets;
    var n := |presets|;
    var i := PresetIndex(presets, c.colorScheme.name);
    var j := StepIndex(i, n, up);
    var c1 := c.(colorScheme := presets[j]);
    assert Adjusted(c, ColorSchemeField, if up then 0.05 else -0.05, cat) == c1;
    PresetIndexOf(presets, j);
    StepBack(i, n);
    assert StepIndex(j, n, !up) == i;
  }

  /** With distinct names, a preset's name finds it. */
  lemma PresetIndexOf(presets: seq<ColorScheme>, k: nat)
    requires k < |presets|
    requires forall i, j :: 0 <= i < j < |presets| ==> presets[i].name != presets[j].name
    ensures PresetIndex(presets, presets[k].name) == k
  {
    var p := Position(presets, presets[k].name);
    assert p.Some?;
  }

  /** An arrow key changes the visibility of later fields only. */
  lemma AdjustKeepsEarlierFields(c: Config, f: ConfigField, delta: real, cat: Catalog, g: ConfigField)
    requires cat.presets != []
    requires Ord(g) <= Ord(f)
    ensures ShouldShow(g, Adjusted(c, f, delta, cat)) == ShouldShow(g, c)
  {
  }

  /** An arrow key keeps the selected field on its row. */
  lemma AdjustKeepsRow(c: Config, tab: ConfigTab, selected: nat, delta: real, cat: Catalog)
    requires cat.presets != []
    requires selected < |FieldsForTab(tab, c)|
    ensures var f := FieldsForTab(tab, c)[selected];
            var c1 := Adjusted(c, f, delta, cat);
            selected < |FieldsForTab(tab, c1)| && FieldsForTab(tab, c1)[selected] == f
  {
    var f := FieldsForTab(tab, c)[selected];
    forall g | Ord(g) <= Ord(f)
      ensures ShouldShow(g, c) == ShouldShow(g, Adjusted(c, f, delta, cat))
    {
      AdjustKeepsEarlierFields(c, f, delta, cat, g);
    }
    SameRow(tab, c, Adjusted(c, f, delta, cat), selected);
  }

  // ---------------------------------------------------------------------
  // Field lines

  /** `get_field_value`: where a slider's setting sits on its bar, 0 for
      fields that are not sliders. */
  function FieldValue(c: Config, f: ConfigField): real {
    var e := c.effects;
    match f
    case Curvature => e.screenCurvature / 0.5
    case Scanlines => e.scanlineIntensity
    case Bloom => e.bloom
    case BurnIn => e.burnIn
    case StaticNoise => e.staticNoise / 0.5
    case Flicker => e.flicker / 0.5
    case Vignette => e.vignette
    case Brightness => (e.brightness - 0.1) / 1.9
    case FocusGlowRadius => e.focusGlowRadius / 0.3
    case FocusGlowWidth => (e.focusGlowWidth - 0.001) / 0.299
    case FocusGlowIntensity => e.focusGlowIntensity
    case ContentScaleX => (e.contentScaleX - 0.8) / 0.4
    case ContentScaleY => (e.contentScaleY - 0.8) / 0.4
    case FontSize => (c.fontSize - 8.0) / 24.0
    case _ => 0.0
  }

  /** A slider's bar position is its setting's fraction of the slider's
      range, so a setting inside the range lands on the bar. */
  lemma FieldValueIsFraction(c: Config, f: ConfigField)
    requires IsSlider(f)
    ensures var (lo, hi) := SliderRange(f);
            var v := ValueOf(c, f).x;
            && FieldValue(c, f) == (v - lo) / (hi - lo)
            && (lo <= v <= hi ==> 0.0 <= FieldValue(c, f) <= 1.0)
  {
    var (lo, hi) := SliderRange(f);
    var v := ValueOf(c, f).x;
    assert FieldValue(c, f) == (v - lo) / (hi - lo);
    if lo <= v <= hi {
      FractionBounds(v - lo, hi - lo);
    }
  }

  lemma FractionBounds(x: real, d: real)
    requires 0.0 <= x <= d && d > 0.0
    ensures 0.0 <= x / d <= 1.0
  {
  }

  /** The number of `=` in a 12-cell bar for `v`: `v * 12` rounded, cut to
      0 .. 12 (a negative count saturates to 0 in the cast to `usize`). */
  function Filled(v: real): (n: nat)
    ensures n <= 12
  {
    Min(Max(Round(v * 12.0), 0), 12) as nat
  }

  /** The bar shows a value in 0 .. 1 to the nearest twelfth, is empty at
      0 and full at 1 and beyond, and grows with the value. */
  lemma FilledMeaning(v: real, w: real)
    ensures 0.0 <= v <= 1.0 ==> -0.5 < (Filled(v) as real) - v * 12.0 <= 0.5
    ensures v <= 0.0 ==> Filled(v) == 0
    ensures v >= 1.0 ==> Filled(v) == 12
    ensures v <= w ==> Filled(v) <= Filled(w)
  {
    if v <= w {
      RoundMonotone(v * 12.0, w * 12.0);
    }
  }

  lemma RoundMonotone(x: real, y: real)
    requires x <= y
    ensures Round(x) <= Round(y)
  {
  }

  /** The bar: `[`, `filled` `=`, the rest `-`, `]`. */
  function Bar(filled: nat): (r: string)
    requires filled <= 12
    ensures |r| == 14 && r[0] == '[' && r[13] == ']'
    ensures forall i :: 1 <= i <= 12 ==> r[i] == (if i <= filled then '=' else '-')
  {
    "[" + Repeat('=', filled) + Repeat('-', 12 - filled) + "]"
  }

  /** The number printed after a slider's bar; the two size sliders print
      none. */
  function SliderText(c: Config, f: ConfigField, cat: Catalog): string {
    var e := c.effects;
    match f
    case Curvature => cat.fixed(e.screenCurvature, 2)
    case Scanlines => cat.fixed(e.scanlineIntensity, 2)
    case Bloom => cat.fixed(e.bloom, 2)
    case BurnIn => cat.fixed(e.burnIn, 2)
    case StaticNoise => cat.fixed(e.staticNoise, 2)
    case Flicker => cat.fixed(e.flicker, 2)
    case Vignette => cat.fixed(e.vignette, 2)
    case Brightness => cat.fixed(e.brightness, 2)
    case FocusGlowRadius => cat.fixed(e.focusGlowRadius, 4)
    case FocusGlowWidth => cat.fixed(e.focusGlowWidth, 4)
    case FocusGlowIntensity => cat.fixed(e.focusGlowIntensity, 2)
    case FontSize => cat.fixed(c.fontSize, 0) + "px"
    case _ => ""
  }

  /** The name shown between `<` and `>` on a choice line. */
  function ChoiceName(c: Config, f: ConfigField, cat: Catalog): string {
    match f
    case FontFamily => cat.fontLabel(c.font)
    case BdfFontFamily => if c.bdfFont.Some? then cat.bdfLabel(c.bdfFont.value) else "?"
    case ColorSchemeField => c.colorScheme.name
    case FontType => if c.bdfFont.Some? then "BDF" else "TTF"
    case ScanlineMode => if c.effects.scanlineMode == RowBased then "Row" else "Pixel"
    case _ => "?"
  }

  /** Fields drawn as `< name >`: the selectors, the font type and the
      scanline style. */
  predicate IsChoice(f: ConfigField) {
    IsSelector(f) || f == FontType || f == ScanlineMode
  }

  function Prefix(selected: bool): (r: string)
    ensures |r| == 2
  {
    if selected then "> " else "  "
  }

  /** What follows the label column on a row that is not a button. */
  function RowTail(c: Config, f: ConfigField, cat: Catalog): string {
    if IsSlider(f) then " " + Bar(Filled(FieldValue(c, f))) + " " + SliderText(c, f, cat)
    else if IsChoice(f) then " < " + Center(ChoiceName(c, f, cat), 13) + " >"
    else if f == BeamSimulation then
      (if c.effects.beamSimulationEnabled then " [ON ] 240Hz+ REQ!" else " [OFF]")
    else " " + (if IsOn(c, f) then "[ON ]" else "[OFF]")
  }

  /** The state an on/off row shows. */
  function IsOn(c: Config, f: ConfigField): bool {
    match f
    case PerPaneCrt => c.perPaneCrt
    case BezelEnabled => c.effects.bezelEnabled
    case AutoCopySelection => c.behavior.autoCopySelection
    case ShowStartupHint => c.behavior.showStartupHint
    case Interlace => c.effects.interlaceEnabled
    case BeamSimulation => c.effects.beamSimulationEnabled
    case _ => false
  }

  /** `format_field_line`: the text of a field's row; a label shorter than
      12 characters is padded to 12. */
  function FieldLine(c: Config, f: ConfigField, selected: bool, cat: Catalog): string {
    if IsButton(f) then Prefix(selected) + Label(f)
    else Prefix(selected) + PadRight(Label(f), 12) + RowTail(c, f, cat)
  }

  /** Where the parts of `prefix + text padded to 12 + tail` sit. */
  lemma Columns(p: string, text: string, tail: string)
    requires |p| == 2
    ensures var line := p + PadRight(text, 12) + tail;
            && |line| == 2 + Max(|text|, 12) + |tail|
            && line[..2] == p
            && line[2..2 + |text|] == text
            && (|text| <= 12 ==> line[14..] == tail)
  {
    var l := PadRight(text, 12);
    var line := p + l + tail;
    assert line[2..2 + |text|] == l[..|text|];
    if |text| <= 12 {
      assert |l| == 12;
      assert line[14..] == tail;
    }
  }

  /** Only the scanline style's label is longer than its column. */
  lemma LabelWidth(f: ConfigField)
    ensures f != ScanlineMode ==> |Label(f)| <= 12
    ensures |Label(f)| <= 13
  {
  }

  /** Every row starts with the selection marker and the field's label. */
  lemma FieldLineHead(c: Config, f: ConfigField, selected: bool, cat: Catalog)
    ensures var line := FieldLine(c, f, selected, cat);
            && |line| >= 2 + |Label(f)|
            && line[..2] == Prefix(selected)
            && line[2..2 + |Label(f)|] == Label(f)
            && (line[0] == '>' <==> selected)
  {
    LineHead(Prefix(selected), Label(f), RowTail(c, f, cat), IsButton(f));
  }

  /** The head of a line built as `FieldLine` builds it. */
  lemma LineHead(p: string, l: string, tail: string, button: bool)
    requires |p| == 2
    ensures var line := if button then p + l else p + PadRight(l, 12) + tail;
            && |line| >= 2 + |l|
            && line[..2] == p
            && line[2..2 + |l|] == l
  {
    if button {
      assert (p + l)[2..2 + |l|] == l;
    } else {
      Columns(p, l, tail);
    }
  }


  /** A slider row shows its bar, filled in proportion to the setting, in
      columns 15 to 28. */
  lemma SliderLine(c: Config, f: ConfigField, selected: bool, cat: Catalog)
    requires IsSlider(f)
    ensures var line := FieldLine(c, f, selected, cat);
            |line| >= 30 && line[15..29] == Bar(Filled(FieldValue(c, f)))
  {
    LabelWidth(f);
    FieldKinds(f);
    var tail := RowTail(c, f, cat);
    Columns(Prefix(selected), Label(f), tail);
    var bar := Bar(Filled(FieldValue(c, f)));
    assert tail == " " + bar + " " + SliderText(c, f, cat);
    assert tail[1..15] == bar;
  }

  /** A choice row is 32 characters wide when its label and its name fit
      their columns (the 13-character "Scanline Type" makes its row one
      wider), and ends with the closing `>`. */
  lemma ChoiceLine(c: Config, f: ConfigField, selected: bool, cat: Catalog)
    requires IsChoice(f) && |ChoiceName(c, f, cat)| <= 13
    ensures var line := FieldLine(c, f, selected, cat);
            && |line| == 20 + Max(|Label(f)|, 12)
            && line[|line| - 2..] == " >"
  {
    FieldKinds(f);
    var tail := RowTail(c, f, cat);
    assert tail == " < " + Center(ChoiceName(c, f, cat), 13) + " >";
    Columns(Prefix(selected), Label(f), tail);
  }

  /** An on/off row shows the switch's state, `[ON ]` or `[OFF]`, right
      after the label column. */
  lemma ToggleLine(c: Config, f: ConfigField, selected: bool, cat: Catalog)
    requires IsToggle(f) && !IsChoice(f)
    ensures ValueOf(c, f).Flag?
    ensures var line := FieldLine(c, f, selected, cat);
            |line| >= 20 && line[15..20] == if ValueOf(c, f).on then "[ON ]" else "[OFF]"
  {
    LabelWidth(f);
    FieldKinds(f);
    assert ValueOf(c, f) == Flag(IsOn(c, f));
    var tail := RowTail(c, f, cat);
    ToggleTail(c, f, cat);
    Columns(Prefix(selected), Label(f), tail);
  }

  lemma ToggleTail(c: Config, f: ConfigField, cat: Catalog)
    requires IsToggle(f) && !IsChoice(f)
    ensures var tail := RowTail(c, f, cat);
            |tail| >= 6 && tail[1..6] == if IsOn(c, f) then "[ON ]" else "[OFF]"
  {
    FieldKinds(f);
  }

  // ---------------------------------------------------------------------
  // Panel layout

  /** The content rows the first `n` fields take: a field with a separator
      before it (and not first) takes a blank row and then its own row.
      `Some(k)` is the row of field `k`, `None` a separator. */
  function Layout(fields: seq<ConfigField>, n: nat): (r: seq<Option<nat>>)
    requires n <= |fields|
    ensures |r| >= n
    ensures forall i :: 0 <= i < |r| && r[i].Some? ==> r[i].value < n
  {
    if n == 0 then []
    else
      var k := n - 1;
      Layout(fields, k) + (if k > 0 && HasSeparatorBefore(fields[k]) then [None, Some(k)] else [Some(k)])
  }

  /** The content row of field `k`. */
  function RowOfField(fields: seq<ConfigField>, k: nat): nat
    requires k < |fields|
  {
    |Layout(fields, k)| + (if k > 0 && HasSeparatorBefore(fields[k]) then 1 else 0)
  }

  /** The number of content rows a tab's fields take. */
  function RowsOf(fields: seq<ConfigField>): nat {
    |Layout(fields, |fields|)|
  }

  /** The layout of fewer fields is the start of the layout of more. */
  lemma {:induction false} LayoutPrefix(fields: seq<ConfigField>, k: nat, n: nat)
    requires k <= n <= |fields|
    ensures Layout(fields, k) <= Layout(fields, n)
    decreases n
  {
    if k < n {
      LayoutPrefix(fields, k, n - 1);
    }
  }

  /** Every field has its own row, after those of the fields before it,
      and a separator row holds no field. */
  lemma LayoutRow(fields: seq<ConfigField>, k: nat, n: nat)
    requires k < n <= |fields|
    ensures RowOfField(fields, k) < |Layout(fields, n)|
    ensures Layout(fields, n)[RowOfField(fields, k)] == Some(k)
    ensures k > 0 && HasSeparatorBefore(fields[k]) ==> Layout(fields, n)[RowOfField(fields, k) - 1] == None
    ensures k > 0 ==> RowOfField(fields, k - 1) < RowOfField(fields, k)
  {
    LayoutPrefix(fields, k + 1, n);
    if k > 0 {
      LayoutPrefix(fields, k, k + 1);
    }
  }

  /** A row shows field `k` only if it is field `k`'s row. */
  lemma {:induction false} LayoutRowUnique(fields: seq<ConfigField>, n: nat, r: nat)
    requires n <= |fields| && r < |Layout(fields, n)| && Layout(fields, n)[r].Some?
    ensures Layout(fields, n)[r].value < n && RowOfField(fields, Layout(fields, n)[r].value) == r
    decreases n
  {
    var k := n - 1;
    if r < |Layout(fields, k)| {
      LayoutRowUnique(fields, k, r);
    }
  }

  /** The tallest tab's content, up to tab `t`. */
  function MaxRowsUpTo(c: Config, t: nat): nat
    requires t <= |TABS|
  {
    if t == 0 then 0 else Max(MaxRowsUpTo(c, t - 1), RowsOf(FieldsForTab(TABS[t - 1], c))) as nat
  }

  /** `panel_height`: borders, tab bar and blank row around the tallest
      tab's content, with at least 6 content rows. */
  function PanelHeightOf(c: Config): nat {
    4 + Max(MaxRowsUpTo(c, |TABS|), 6) as nat
  }

  /** The panel is at least 10 rows high and every tab's rows fit between
      its third row and its bottom border, so every field of every tab has
      a row inside the panel. */
  lemma PanelFits(c: Config, tab: ConfigTab)
    ensures PanelHeightOf(c) >= 10
    ensures 4 + RowsOf(FieldsForTab(tab, c)) <= PanelHeightOf(c)
    ensures forall k :: 0 <= k < |FieldsForTab(tab, c)| ==> 3 + RowOfField(FieldsForTab(tab, c), k) < PanelHeightOf(c) - 1
  {
    var fields := FieldsForTab(tab, c);
    var i := TabIndex(tab);
    MaxRowsGrows(c, i + 1, |TABS|);
    forall k | 0 <= k < |fields|
      ensures 3 + RowOfField(fields, k) < PanelHeightOf(c) - 1
    {
      LayoutRow(fields, k, |fields|);
    }
  }

  lemma {:induction false} MaxRowsGrows(c: Config, t: nat, u: nat)
    requires 1 <= t <= u <= |TABS|
    ensures RowsOf(FieldsForTab(TABS[t - 1], c)) <= MaxRowsUpTo(c, u)
    decreases u
  {
    if t < u {
      MaxRowsGrows(c, t, u - 1);
    }
  }

  // ---------------------------------------------------------------------
  // Drawing the panel

  /** The panel is 44 cells wide. */
  const PANEL_WIDTH: nat := 44
  const TITLE: string := " Settings "

  type Cell = Renderer.RenderCell

  const TRANSPARENT := Rgba(0.0, 0.0, 0.0, 0.0)

  function Scale(k: real, x: Rgba, alpha: real): Rgba {
    Rgba(x.r * k, x.g * k, x.b * k, alpha)
  }

  /** The panel's colours, all taken from the colour scheme: borders in
      its cyan, highlighted text in its bright white, inactive tabs in
      the foreground at 60%, the selected row on the foreground at 15%. */
  function Border(c: Config): Rgba { c.colorScheme.colors[6] }
  function Bright(c: Config): Rgba { c.colorScheme.colors[15] }
  function Dim(c: Config): Rgba { Scale(0.6, c.colorScheme.foreground, c.colorScheme.foreground.a) }
  function Highlight(c: Config): Rgba { Scale(0.15, c.colorScheme.foreground, 1.0) }

  /** The plain cell: a space in the foreground colour, nothing behind. */
  function Blank(c: Config): Cell {
    Renderer.RenderCell(' ', c.colorScheme.foreground, TRANSPARENT)
  }

  /** Tab `i`'s tag in the tab bar, `[1:Effects]` and so on. */
  function TabTag(i: nat): string
    requires i < |TABS|
  {
    "[" + NatToString(i + 1) + ":" + TabLabel(TABS[i]) + "]"
  }

  /** The tab bar up to tab `n`: the tags, two spaces apart. */
  function TabBarText(n: nat): string
    requires n <= |TABS|
  {
    if n == 0 then "" else TabBarText(n - 1) + (if n > 1 then "  " else "") + TabTag(n - 1)
  }

  /** The first column of tab `i`'s tag. */
  function TabStart(i: nat): nat
    requires i < |TABS|
  {
    |TabBarText(i)| + (if i > 0 then 2 else 0)
  }

  /** The tab whose tag covers column `x` of the bar, looking from tab `i`. */
  function TabAtColumn(x: nat, i: nat): Option<ConfigTab>
    requires i <= |TABS|
    decreases |TABS| - i
  {
    if i == |TABS| then None
    else if TabStart(i) <= x < TabStart(i) + |TabTag(i)| then Some(TABS[i])
    else TabAtColumn(x, i + 1)
  }

  /** The tags read `[1:Effects]`, `[2:Appearance]` and `[3:Behavior]`. */
  lemma TabTags()
    ensures TabTag(0) == "[1:Effects]" && TabTag(1) == "[2:Appearance]" && TabTag(2) == "[3:Behavior]"
  {
    assert NatToString(1) == "1" && NatToString(2) == "2" && NatToString(3) == "3";
  }

  /** The bar is the three tags two spaces apart, 41 characters in all. */
  lemma TabBarWhole()
    ensures TabBarText(|TABS|) == TabTag(0) + "  " + TabTag(1) + "  " + TabTag(2)
    ensures |TabBarText(|TABS|)| == 41
  {
    TabTags();
    assert TabBarText(1) == TabTag(0);
  }

  /** The bar's columns belong to the tabs in these spans, the two-space
      gaps to none. */
  lemma TabBarSpans(x: nat)
    ensures TabAtColumn(x, 0) == Some(Effects) <==> x < 11
    ensures TabAtColumn(x, 0) == Some(Appearance) <==> 13 <= x < 27
    ensures TabAtColumn(x, 0) == Some(Behavior) <==> 29 <= x < 41
  {
    TabTags();
    assert |TabTag(0)| == 11 && |TabTag(1)| == 14 && |TabTag(2)| == 12;
    assert TabStart(0) == 0;
    assert |TabBarText(1)| == 11;
    assert TabStart(1) == 13;
    assert |TabBarText(2)| == 27;
    assert TabStart(2) == 29;
  }

  /** `render_tab_bar_cell`: the bar centred in `width` cells, the current
      tab's tag bright, the others dim. */
  function TabBarCell(c: Config, current: ConfigTab, col: nat, width: nat): Cell {
    BarCell(c, current, TabBarText(|TABS|), col, width)
  }

  /** Column `col` of `bar` centred in `width` cells, coloured by the tab
      whose tag covers it. */
  function BarCell(c: Config, current: ConfigTab, bar: string, col: nat, width: nat): Cell {
    var padding := SatSub(width, |bar|) / 2;
    if col < padding || col >= padding + |bar| then Blank(c)
    else
      var x := col - padding;
      match TabAtColumn(x, 0)
      case Some(t) => Renderer.RenderCell(bar[x], if t == current then Bright(c) else Dim(c), TRANSPARENT)
      case None => Renderer.RenderCell(bar[x], c.colorScheme.foreground, TRANSPARENT)
  }

  /** The field shown on content row `r` of a tab, if any. */
  function ContentAt(fields: seq<ConfigField>, r: nat): Option<nat> {
    var rows := Layout(fields, |fields|);
    if r < |rows| then rows[r] else None
  }

  /** A field row's cell at column `cc`: its text, bright on the highlight
      when selected; past the text's byte length, blank. */
  function TextCell(c: Config, line: string, cc: nat, selected: bool): Cell {
    if cc < |Utf8Str(line)| then
      Renderer.RenderCell(if cc < |line| then line[cc] else ' ',
                          if selected then Bright(c) else c.colorScheme.foreground,
                          if selected then Highlight(c) else TRANSPARENT)
    else Blank(c)
  }

  /** `render_panel_cell`: the cell at (`col`, `row`) of a `w` x `h` panel. */
  function PanelCell(c: Config, tab: ConfigTab, selected: nat, cat: Catalog,
                     col: nat, row: nat, w: nat, h: nat): Cell
    requires w >= |TITLE| && h >= 1
  {
    if IsFrame(col, row, w, h) then FrameCell(c, col, row, w, h)
    else InnerCell(c, tab, selected, cat, col, row, w)
  }

  /** The border rows and columns. */
  predicate IsFrame(col: nat, row: nat, w: nat, h: nat) {
    row == 0 || row + 1 == h || col == 0 || col + 1 == w
  }

  /** The frame: box-drawing corners and edges in the border colour, with
      the title centred in the top edge. */
  function FrameCell(c: Config, col: nat, row: nat, w: nat, h: nat): Cell
    requires w >= |TITLE| && h >= 1
  {
    var border := Border(c);
    if row == 0 then
      var titleStart := (w - |TITLE|) / 2;
      if col == 0 then Renderer.RenderCell('┌', border, TRANSPARENT)
      else if col == w - 1 then Renderer.RenderCell('┐', border, TRANSPARENT)
      else if titleStart <= col < titleStart + |TITLE| then
        Renderer.RenderCell(TITLE[col - titleStart], Bright(c), TRANSPARENT)
      else Renderer.RenderCell('─', border, TRANSPARENT)
    else if row == h - 1 then
      if col == 0 then Renderer.RenderCell('└', border, TRANSPARENT)
      else if col == w - 1 then Renderer.RenderCell('┘', border, TRANSPARENT)
      else Renderer.RenderCell('─', border, TRANSPARENT)
    else Renderer.RenderCell('│', border, TRANSPARENT)
  }

  /** Inside the frame: the tab bar on row 1, a blank row 2 and left
      margin, then the field rows two columns in. */
  function InnerCell(c: Config, tab: ConfigTab, selected: nat, cat: Catalog, col: nat, row: nat, w: nat): Cell
    requires w >= |TITLE| && row >= 1 && col >= 1
  {
    if row == 1 then TabBarCell(c, tab, col - 1, w - 2)
    else BodyCell(c, FieldsForTab(tab, c), selected, cat, col, row, w)
  }

  /** Below the tab bar, for a tab listing `fields`. */
  function BodyCell(c: Config, fields: seq<ConfigField>, selected: nat, cat: Catalog, col: nat, row: nat, w: nat): Cell
    requires row >= 2 && col >= 1
  {
    if row == 2 || col == 1 then Blank(c)
    else if col - 2 >= w - 4 then Blank(c)
    else ContentCell(c, fields, selected, cat, col - 2, row - 3)
  }

  /** The cell at column `cc` of content row `cr` of a tab listing
      `fields`: part of the field drawn on that row, or blank on a
      separator or below the last field. */
  function ContentCell(c: Config, fields: seq<ConfigField>, selected: nat, cat: Catalog, cc: nat, cr: nat): Cell {
    match ContentAt(fields, cr)
    case None => Blank(c)
    case Some(k) =>
      if k < |fields| then TextCell(c, FieldLine(c, fields[k], k == selected, cat), cc, k == selected)
      else Blank(c)
  }

  /** A field's text is drawn on the field's row, from content column 0,
      bright on the highlight when the field is selected. */
  lemma ContentDrawn(c: Config, fields: seq<ConfigField>, selected: nat, cat: Catalog, k: nat, cc: nat)
    requires k < |fields|
    requires cc < |FieldLine(c, fields[k], k == selected, cat)|
    ensures var line := FieldLine(c, fields[k], k == selected, cat);
            ContentCell(c, fields, selected, cat, cc, RowOfField(fields, k))
            == Renderer.RenderCell(line[cc], if k == selected then Bright(c) else c.colorScheme.foreground,
                                   if k == selected then Highlight(c) else TRANSPARENT)
  {
    LayoutRow(fields, k, |fields|);
  }

  /** Inside the frame, below the tab bar and the blank row, two columns
      in, the panel shows the current tab's content. */
  lemma PanelContent(c: Config, tab: ConfigTab, selected: nat, cat: Catalog, cc: nat, cr: nat, h: nat)
    requires cc < PANEL_WIDTH - 4 && 3 + cr < h - 1
    ensures PanelCell(c, tab, selected, cat, 2 + cc, 3 + cr, PANEL_WIDTH, h)
            == ContentCell(c, FieldsForTab(tab, c), selected, cat, cc, cr)
  {
    assert (2 + cc) - 2 == cc && (3 + cr) - 3 == cr;
  }

  /** Every field's text appears on its own row of the panel, starting two
      columns in from the left border, highlighted when selected. */
  lemma FieldDrawn(c: Config, tab: ConfigTab, selected: nat, cat: Catalog, k: nat, cc: nat)
    requires k < |FieldsForTab(tab, c)|
    requires var line := FieldLine(c, FieldsForTab(tab, c)[k], k == selected, cat);
             cc < |line| && cc < PANEL_WIDTH - 4
    ensures var fields := FieldsForTab(tab, c);
            var line := FieldLine(c, fields[k], k == selected, cat);
            var row := 3 + RowOfField(fields, k);
            && row < PanelHeightOf(c) - 1
            && PanelCell(c, tab, selected, cat, 2 + cc, row, PANEL_WIDTH, PanelHeightOf(c))
               == Renderer.RenderCell(line[cc], if k == selected then Bright(c) else c.colorScheme.foreground,
                                      if k == selected then Highlight(c) else TRANSPARENT)
  {
    var fields := FieldsForTab(tab, c);
    PanelFits(c, tab);
    PanelContent(c, tab, selected, cat, cc, RowOfField(fields, k), PanelHeightOf(c));
    ContentDrawn(c, fields, selected, cat, k, cc);
  }

  /** The panel's frame: corners, borders and the centred title. */
  lemma PanelFrame(c: Config, tab: ConfigTab, selected: nat, cat: Catalog, col: nat, row: nat, h: nat)
    requires h >= 2 && col < PANEL_WIDTH && row < h
    ensures var cell := PanelCell(c, tab, selected, cat, col, row, PANEL_WIDTH, h);
            && (row == 0 && 17 <= col < 27 ==> cell.c == TITLE[col - 17] && cell.fg == Bright(c))
            && ((row == 0 || row == h - 1) && !(row == 0 && 17 <= col < 27) ==> cell.fg == Border(c))
            && (0 < row < h - 1 && (col == 0 || col == PANEL_WIDTH - 1) ==> cell.c == '│')
            && (row == 0 && col == 0 ==> cell.c == '┌') && (row == 0 && col == PANEL_WIDTH - 1 ==> cell.c == '┐')
            && (row == h - 1 && col == 0 ==> cell.c == '└') && (row == h - 1 && col == PANEL_WIDTH - 1 ==> cell.c == '┘')
  {
  }

  /** One more field adds one row, or two when a separator goes before it. */
  lemma RowStep(fields: seq<ConfigField>, k: nat)
    requires k < |fields|
    ensures |Layout(fields, k + 1)| == RowOfField(fields, k) + 1
  {
  }

  /** The margin before a `size`-cell span centred in `total` cells,
      none when it does not fit. */
  function Margin(total: nat, size: nat): nat {
    SatSub(total, size) / 2
  }

  /** A span that fits is inside, with margins differing by at most one
      cell, the larger one after it. */
  lemma Centring(total: nat, size: nat)
    requires size <= total
    ensures Margin(total, size) + size <= total
    ensures 0 <= (total - size - Margin(total, size)) - Margin(total, size) <= 1
  {
  }

  /** `render`: the overlay over a `widthCells` x `heightCells` grid, an
      `h`-row panel centred in it and everything around it transparent. */
  function ScreenCell(c: Config, tab: ConfigTab, selected: nat, cat: Catalog, h: nat,
                      col: nat, row: nat, widthCells: nat, heightCells: nat): Cell
  {
    var startCol := Margin(widthCells, PANEL_WIDTH);
    var startRow := Margin(heightCells, h);
    if startCol <= col < startCol + PANEL_WIDTH && startRow <= row < startRow + h then
      PanelCell(c, tab, selected, cat, col - startCol, row - startRow, PANEL_WIDTH, h)
    else Renderer.RenderCell(' ', TRANSPARENT, TRANSPARENT)
  }

  /** On a grid large enough for it, every cell of the panel is drawn,
      shifted by the margins. */
  lemma PanelCentred(c: Config, tab: ConfigTab, selected: nat, cat: Catalog, h: nat,
                     widthCells: nat, heightCells: nat, pc: nat, pr: nat)
    requires widthCells >= PANEL_WIDTH && heightCells >= h
    requires pc < PANEL_WIDTH && pr < h
    ensures ScreenCell(c, tab, selected, cat, h, Margin(widthCells, PANEL_WIDTH) + pc,
                       Margin(heightCells, h) + pr, widthCells, heightCells)
            == PanelCell(c, tab, selected, cat, pc, pr, PANEL_WIDTH, h)
  {
    var col, row := Margin(widthCells, PANEL_WIDTH) + pc, Margin(heightCells, h) + pr;
    assert col - Margin(widthCells, PANEL_WIDTH) == pc;
    assert row - Margin(heightCells, h) == pr;
  }

  /** Outside the panel, every cell is a space with a transparent foreground
      and background. */
  lemma OutsideTransparent(c: Config, tab: ConfigTab, selected: nat, cat: Catalog, h: nat,
                           col: nat, row: nat, widthCells: nat, heightCells: nat)
    requires col < Margin(widthCells, PANEL_WIDTH) || row < Margin(heightCells, h)
             || col >= Margin(widthCells, PANEL_WIDTH) + PANEL_WIDTH || row >= Margin(heightCells, h) + h
    ensures ScreenCell(c, tab, selected, cat, h, col, row, widthCells, heightCells)
            == Renderer.RenderCell(' ', TRANSPARENT, TRANSPARENT)
  {
  }

  /** Row `row` of the overlay, its first `n` cells. */
  function ScreenRow(c: Config, tab: ConfigTab, selected: nat, cat: Catalog, h: nat,
                     row: nat, widthCells: nat, heightCells: nat, n: nat): (r: seq<Cell>)
    ensures |r| == n
  {
    if n == 0 then []
    else ScreenRow(c, tab, selected, cat, h, row, widthCells, heightCells, n - 1)
         + [ScreenCell(c, tab, selected, cat, h, n - 1, row, widthCells, heightCells)]
  }

  /** The first `n` rows of the overlay, each `widthCells` wide. */
  function ScreenRows(c: Config, tab: ConfigTab, selected: nat, cat: Catalog, h: nat,
                      widthCells: nat, heightCells: nat, n: nat): (r: seq<seq<Cell>>)
    ensures |r| == n
  {
    if n == 0 then []
    else ScreenRows(c, tab, selected, cat, h, widthCells, heightCells, n - 1)
         + [ScreenRow(c, tab, selected, cat, h, n - 1, widthCells, heightCells, widthCells)]
  }

  /** The first `n` cells of a row are the cells at columns 0 to `n` - 1. */
  lemma {:induction false} ScreenRowAt(c: Config, tab: ConfigTab, selected: nat, cat: Catalog, h: nat,
                                       row: nat, widthCells: nat, heightCells: nat, n: nat, col: nat)
    requires col < n
    ensures ScreenRow(c, tab, selected, cat, h, row, widthCells, heightCells, n)[col]
            == ScreenCell(c, tab, selected, cat, h, col, row, widthCells, heightCells)
  {
    if col < n - 1 {
      ScreenRowAt(c, tab, selected, cat, h, row, widthCells, heightCells, n - 1, col);
    }
  }

  /** The cell at (`col`, `row`) of the grid is the one `render` puts there. */
  lemma {:induction false} ScreenAt(c: Config, tab: ConfigTab, selected: nat, cat: Catalog, h: nat,
                                    widthCells: nat, heightCells: nat, n: nat, col: nat, row: nat)
    requires row < n && col < widthCells
    ensures |ScreenRows(c, tab, selected, cat, h, widthCells, heightCells, n)[row]| == widthCells
    ensures ScreenRows(c, tab, selected, cat, h, widthCells, heightCells, n)[row][col]
            == ScreenCell(c, tab, selected, cat, h, col, row, widthCells, heightCells)
  {
    if row < n - 1 {
      ScreenAt(c, tab, selected, cat, h, widthCells, heightCells, n - 1, col, row);
    } else {
      ScreenRowAt(c, tab, selected, cat, h, row, widthCells, heightCells, widthCells, col);
    }
  }

  // ---------------------------------------------------------------------
  // Drawing, cell by cell

  /** `render_tab_bar_cell`: builds the bar, then colours the cell by the
      tag under `col`. */
  method RenderTabBarCell(config: Config, currentTab: ConfigTab, col: nat, width: nat) returns (cell: Cell)
    ensures cell == TabBarCell(config, currentTab, col, width)
  {
    var bar := BuildTabBar();
    cell := ColourBarCell(config, currentTab, bar, col, width);
  }

  /** The rest of `render_tab_bar_cell`: centres the bar, then colours the
      cell by the tag under `col`. */
  method ColourBarCell(config: Config, currentTab: ConfigTab, bar: string, col: nat, width: nat) returns (cell: Cell)
    ensures cell == BarCell(config, currentTab, bar, col, width)
  {
    var padding := SatSub(width, |bar|) / 2;
    if col < padding || col >= padding + |bar| {
      return Blank(config);
    }
    var barCol := col - padding;
    var ch := bar[barCol];
    var tab := TabUnder(barCol);
    match tab
    case Some(t) =>
      var tabFg := if t == currentTab then Bright(config) else Dim(config);
      cell := Renderer.RenderCell(ch, tabFg, TRANSPARENT);
    case None =>
      cell := Renderer.RenderCell(ch, config.colorScheme.foreground, TRANSPARENT);
  }

  /** The first loop of `render_tab_bar_cell`: the tags, two spaces apart. */
  method BuildTabBar() returns (bar: string)
    ensures bar == TabBarText(|TABS|)
  {
    bar := "";
    for i := 0 to |TABS|
      invariant bar == TabBarText(i)
    {
      if i > 0 {
        bar := bar + "  ";
      }
      bar := bar + TabTag(i);
    }
  }

  /** The second loop of `render_tab_bar_cell`: walks the tags to find the
      one covering column `barCol` of the bar. */
  method TabUnder(barCol: nat) returns (tab: Option<ConfigTab>)
    ensures tab == TabAtColumn(barCol, 0)
  {
    var pos := 0;
    for i := 0 to |TABS|
      invariant pos == |TabBarText(i)|
      invariant TabAtColumn(barCol, 0) == TabAtColumn(barCol, i)
    {
      if i > 0 {
        pos := pos + 2;
      }
      var tabEnd := pos + |TabTag(i)|;
      if barCol >= pos && barCol < tabEnd {
        return Some(TABS[i]);
      }
      pos := tabEnd;
    }
    tab := None;
  }

  /** `render_panel_cell`: the frame, or what lies inside it. */
  method RenderPanelCell(config: Config, currentTab: ConfigTab, selected: nat, cat: Catalog,
                         col: nat, row: nat, width: nat, height: nat) returns (cell: Cell)
    requires width >= |TITLE| && height >= 1
    ensures cell == PanelCell(config, currentTab, selected, cat, col, row, width, height)
  {
    if row == 0 || row == height - 1 || col == 0 || col == width - 1 {
      cell := RenderFrameCell(config, col, row, width, height);
    } else {
      cell := RenderInnerCell(config, currentTab, selected, cat, col, row, width);
    }
  }

  /** The border part of `render_panel_cell`. */
  method RenderFrameCell(config: Config, col: nat, row: nat, width: nat, height: nat) returns (cell: Cell)
    requires width >= |TITLE| && height >= 1
    ensures cell == FrameCell(config, col, row, width, height)
  {
    var lastRow := height - 1;
    var bright, border, bg := Bright(config), Border(config), TRANSPARENT;
    if row == 0 {
      if col == 0 {
        return Renderer.RenderCell('┌', border, bg);
      } else if col == width - 1 {
        return Renderer.RenderCell('┐', border, bg);
      } else {
        var titleStart := (width - |TITLE|) / 2;
        if col >= titleStart && col < titleStart + |TITLE| {
          return Renderer.RenderCell(TITLE[col - titleStart], bright, bg);
        }
      }
      return Renderer.RenderCell('─', border, bg);
    }
    if row == lastRow {
      if col == 0 {
        return Renderer.RenderCell('└', border, bg);
      } else if col == width - 1 {
        return Renderer.RenderCell('┘', border, bg);
      }
      return Renderer.RenderCell('─', border, bg);
    }
    cell := Renderer.RenderCell('│', border, bg);
  }

  /** The inside part of `render_panel_cell`. */
  method RenderInnerCell(config: Config, currentTab: ConfigTab, selected: nat, cat: Catalog,
                         col: nat, row: nat, width: nat) returns (cell: Cell)
    requires width >= |TITLE| && row >= 1 && col >= 1
    ensures cell == InnerCell(config, currentTab, selected, cat, col, row, width)
  {
    if row == 1 {
      cell := RenderTabBarCell(config, currentTab, col - 1, width - 2);
    } else {
      cell := RenderBodyCell(config, FieldsForTab(currentTab, config), selected, cat, col, row, width);
    }
  }

  /** The rows of `render_panel_cell` below the tab bar. */
  method RenderBodyCell(config: Config, fields: seq<ConfigField>, selected: nat, cat: Catalog,
                        col: nat, row: nat, width: nat) returns (cell: Cell)
    requires row >= 2 && col >= 1
    ensures cell == BodyCell(config, fields, selected, cat, col, row, width)
  {
    if row == 2 || col == 1 {
      cell := Blank(config);
    } else if col - 2 >= width - 4 {
      cell := Blank(config);
    } else {
      cell := RenderContentCell(config, fields, selected, cat, col - 2, row - 3);
    }
  }

  /** The content part of `render_panel_cell`: the field drawn on
      `contentRow`, its text in the selection colours when selected. */
  method RenderContentCell(config: Config, fields: seq<ConfigField>, selected: nat, cat: Catalog,
                           contentCol: nat, contentRow: nat) returns (cell: Cell)
    ensures cell == ContentCell(config, fields, selected, cat, contentCol, contentRow)
  {
    var fg, bg := config.colorScheme.foreground, TRANSPARENT;
    var found := FieldOnRow(fields, contentRow);
    match found
    case None =>
      cell := Renderer.RenderCell(' ', fg, bg);
    case Some(fieldIdx) =>
      var field := fields[fieldIdx];
      var isSelected := fieldIdx == selected;
      var line := FieldLine(config, field, isSelected, cat);
      if contentCol < |Utf8Str(line)| {
        var ch := if contentCol < |line| then line[contentCol] else ' ';
        var textFg := if isSelected then Bright(config) else fg;
        var textBg := if isSelected then Highlight(config) else bg;
        return Renderer.RenderCell(ch, textFg, textBg);
      }
      cell := Renderer.RenderCell(' ', fg, bg);
  }

  /** The row walk of `render_panel_cell`: steps through the fields,
      counting separator rows, to the field drawn on `contentRow`; none on a
      separator row or below the last field. */
  method FieldOnRow(fields: seq<ConfigField>, contentRow: nat) returns (found: Option<nat>)
    ensures found == ContentAt(fields, contentRow)
    ensures found.Some? ==> found.value < |fields|
  {
    var fieldIdx := 0;
    var displayRow := 0;
    while fieldIdx < |fields| && displayRow < contentRow
      invariant fieldIdx <= |fields| && displayRow <= contentRow
      invariant fieldIdx < |fields| ==> displayRow == RowOfField(fields, fieldIdx)
      invariant fieldIdx == |fields| ==> displayRow == RowsOf(fields)
      decreases |fields| - fieldIdx
    {
      RowStep(fields, fieldIdx);
      displayRow := displayRow + 1;
      if displayRow <= contentRow {
        if fieldIdx + 1 < |fields| && HasSeparatorBefore(fields[fieldIdx + 1]) {
          if displayRow == contentRow {
            LayoutRow(fields, fieldIdx + 1, |fields|);
            return None;
          }
          displayRow := displayRow + 1;
        }
        fieldIdx := fieldIdx + 1;
      }
    }
    if fieldIdx < |fields| && displayRow == contentRow {
      LayoutRow(fields, fieldIdx, |fields|);
      return Some(fieldIdx);
    }
    found := None;
  }

  /** The outer loop of `render`: one row of cells after another. */
  method RenderScreen(config: Config, currentTab: ConfigTab, selected: nat, cat: Catalog,
                      panelHeight: nat, widthCells: nat, heightCells: nat) returns (rows: seq<seq<Cell>>)
    requires panelHeight >= 1
    ensures rows == ScreenRows(config, currentTab, selected, cat, panelHeight, widthCells, heightCells, heightCells)
  {
    rows := [];
    for row := 0 to heightCells
      invariant rows == ScreenRows(config, currentTab, selected, cat, panelHeight, widthCells, heightCells, row)
    {
      var cells := RenderRow(config, currentTab, selected, cat, panelHeight, row, widthCells, heightCells);
      rows := rows + [cells];
    }
  }

  /** The inner loop of `render`: the cells of row `row`. */
  method RenderRow(config: Config, currentTab: ConfigTab, selected: nat, cat: Catalog,
                   panelHeight: nat, row: nat, widthCells: nat, heightCells: nat) returns (cells: seq<Cell>)
    requires panelHeight >= 1
    ensures cells == ScreenRow(config, currentTab, selected, cat, panelHeight, row, widthCells, heightCells, widthCells)
  {
    cells := [];
    for col := 0 to widthCells
      invariant cells == ScreenRow(config, currentTab, selected, cat, panelHeight, row, widthCells, heightCells, col)
    {
      var cell := RenderScreenCell(config, currentTab, selected, cat, panelHeight, col, row, widthCells, heightCells);
      cells := cells + [cell];
    }
  }

  /** The body of the inner loop: transparent outside the centred panel,
      the panel's own cell inside it. */
  method RenderScreenCell(config: Config, currentTab: ConfigTab, selected: nat, cat: Catalog,
                          panelHeight: nat, col: nat, row: nat, widthCells: nat, heightCells: nat)
    returns (cell: Cell)
    requires panelHeight >= 1
    ensures cell == ScreenCell(config, currentTab, selected, cat, panelHeight, col, row, widthCells, heightCells)
  {
    var startCol := Margin(widthCells, PANEL_WIDTH);
    var startRow := Margin(heightCells, panelHeight);
    var inPanel := col >= startCol && col < startCol + PANEL_WIDTH
                   && row >= startRow && row < startRow + panelHeight;
    if !inPanel {
      return Renderer.RenderCell(' ', TRANSPARENT, TRANSPARENT);
    }
    cell := RenderPanelCell(config, currentTab, selected, cat, col - startCol, row - startRow, PANEL_WIDTH, panelHeight);
  }

  // ---------------------------------------------------------------------
  // The overlay's state

  class ConfigUI {
    var visible: bool
    var selected: nat
    var currentTab: ConfigTab
    /** The working copy the keys edit. */
    var config: Config
    /** The configuration the overlay was opened with, restored by Cancel. */
    var originalConfig: Config

    /** The selection is always on a row of the current tab. */
    predicate Valid()
      reads this
    {
      selected < |CurrentFields()|
    }

    constructor (c: Config)
      ensures Valid()
      ensures !visible && selected == 0 && currentTab == Effects
      ensures config == c && originalConfig == c
    {
      visible := false;
      selected := 0;
      currentTab := Effects;
      config := c;
      originalConfig := c;
      new;
      FieldsForTabSpec(Effects, c);
    }

    function CurrentFields(): seq<ConfigField>
      reads this`currentTab, this`config
    {
      FieldsForTab(currentTab, config)
    }

    /** Opens the overlay on `c`, on the first row of the first tab. */
    method Show(c: Config)
      modifies this
      ensures Valid()
      ensures visible && selected == 0 && currentTab == Effects
      ensures config == c && originalConfig == c
    {
      config := c;
      originalConfig := c;
      visible := true;
      selected := 0;
      currentTab := Effects;
      FieldsForTabSpec(Effects, c);
    }

    /** Tab: the next tab, wrapping, with the selection back on its first row. */
    method NextTab()
      modifies this`currentTab, this`selected
      ensures Valid()
      ensures currentTab == TabAfter(old(currentTab)) && selected == 0
    {
      var i := TabIndex(currentTab);
      currentTab := TABS[(i + 1) % |TABS|];
      selected := 0;
      FieldsForTabSpec(currentTab, config);
    }

    /** Shift-Tab: the previous tab, wrapping, with the selection back on
        its first row. */
    method PrevTab()
      modifies this`currentTab, this`selected
      ensures Valid()
      ensures currentTab == TabBefore(old(currentTab)) && selected == 0
    {
      var i := TabIndex(currentTab);
      var j := if i == 0 then |TABS| - 1 else i - 1;
      currentTab := TABS[j];
      selected := 0;
      FieldsForTabSpec(currentTab, config);
    }

    method Hide()
      modifies this`visible
      ensures !visible
    {
      visible := false;
    }

    /** Closes the overlay and hands back the configuration it was opened
        with, discarding the edits. */
    method Cancel() returns (c: Config)
      modifies this`visible
      ensures !visible && c == originalConfig
    {
      visible := false;
      c := originalConfig;
    }

    /** Closes the overlay and hands back the edited configuration. */
    method Save() returns (c: Config)
      modifies this`visible
      ensures !visible && c == config
    {
      visible := false;
      c := config;
    }

    method MoveUp()
      requires Valid()
      modifies this`selected
      ensures Valid()
      ensures selected == MovedUp(old(selected))
    {
      if selected > 0 {
        selected := selected - 1;
      }
    }

    method MoveDown()
      requires Valid()
      modifies this`selected
      ensures Valid()
      ensures selected == MovedDown(old(selected), |CurrentFields()|)
    {
      var fields := CurrentFields();
      var max := SatSub(|fields|, 1);
      if selected < max {
        selected := selected + 1;
      }
    }

    /** `adjust_field`: one arrow-key step on `field` in the working copy. */
    method AdjustField(field: ConfigField, delta: real, cat: Catalog)
      requires cat.presets != []
      modifies this`config
      ensures config == Adjusted(old(config), field, delta, cat)
    {
      var e := config.effects;
      var change := if delta > 0.0 then 0.01 else -0.01;
      match field {
        case Curvature =>
          config := config.(effects := e.(screenCurvature := Clamp(e.screenCurvature + change, 0.0, 0.5)));
        case Scanlines =>
          config := config.(effects := e.(scanlineIntensity := Clamp(e.scanlineIntensity + change, 0.0, 1.0)));
        case ScanlineMode =>
          var mode := match e.scanlineMode case RowBased => Pixel case Pixel => RowBased;
          config := config.(effects := e.(scanlineMode := mode));
        case Bloom =>
          config := config.(effects := e.(bloom := Clamp(e.bloom + change, 0.0, 1.0)));
        case BurnIn =>
          config := config.(effects := e.(burnIn := Clamp(e.burnIn + change, 0.0, 1.0)));
        case StaticNoise =>
          config := config.(effects := e.(staticNoise := Clamp(e.staticNoise + change, 0.0, 0.5)));
        case Flicker =>
          config := config.(effects := e.(flicker := Clamp(e.flicker + change, 0.0, 0.5)));
        case Vignette =>
          config := config.(effects := e.(vignette := Clamp(e.vignette + change, 0.0, 1.0)));
        case Brightness =>
          config := config.(effects := e.(brightness := Clamp(e.brightness + change, 0.1, 2.0)));
        case PerPaneCrt =>
          config := config.(perPaneCrt := delta > 0.0);
        case FocusGlowRadius =>
          var increment := if e.focusGlowRadius <= 0.02 then 0.0025 else 0.01;
          var step := if delta > 0.0 then increment else -increment;
          config := config.(effects := e.(focusGlowRadius := Clamp(e.focusGlowRadius + step, 0.0, 0.3)));
        case FocusGlowWidth =>
          var increment := if e.focusGlowWidth <= 0.02 then 0.0025 else 0.01;
          var step := if delta > 0.0 then increment else -increment;
          config := config.(effects := e.(focusGlowWidth := Clamp(e.focusGlowWidth + step, 0.001, 0.3)));
        case FocusGlowIntensity =>
          config := config.(effects := e.(focusGlowIntensity := Clamp(e.focusGlowIntensity + change, 0.0, 1.0)));
        case FontType =>
          if config.bdfFont.Some? {
            config := config.(bdfFont := None);
          } else {
            config := config.(bdfFont := Some(cat.fixed9x18));
          }
        case FontFamily =>
          if delta > 0.0 {
            config := config.(font := cat.fontNext(config.font));
          } else {
            config := config.(font := cat.fontPrev(config.font));
          }
        case FontSize =>
          var step := if delta > 0.0 then 1.0 else -1.0;
          config := config.(fontSize := Clamp(config.fontSize + step, 8.0, 32.0));
        case BdfFontFamily =>
          if config.bdfFont.Some? {
            var bdf := config.bdfFont.value;
            if delta > 0.0 {
              config := config.(bdfFont := Some(cat.bdfNext(bdf)));
            } else {
              config := config.(bdfFont := Some(cat.bdfPrev(bdf)));
            }
          }
        case ColorSchemeField =>
          var presets := cat.presets;
          var currentIdx := PresetIndex(presets, config.colorScheme.name);
          var newIdx;
          if delta > 0.0 {
            newIdx := (currentIdx + 1) % |presets|;
          } else if currentIdx == 0 {
            newIdx := |presets| - 1;
          } else {
            newIdx := currentIdx - 1;
          }
          config := config.(colorScheme := presets[newIdx]);
        case BezelEnabled =>
          config := config.(effects := e.(bezelEnabled := delta > 0.0));
        case AutoCopySelection =>
          config := config.(behavior := config.behavior.(autoCopySelection := delta > 0.0));
        case ShowStartupHint =>
          config := config.(behavior := config.behavior.(showStartupHint := delta > 0.0));
        case ContentScaleX =>
          config := config.(effects := e.(contentScaleX := Clamp(e.contentScaleX + change, 0.8, 1.2)));
        case ContentScaleY =>
          config := config.(effects := e.(contentScaleY := Clamp(e.contentScaleY + change, 0.8, 1.2)));
        case BeamSimulation =>
          config := config.(effects := e.(beamSimulationEnabled := delta > 0.0));
        case Interlace =>
          config := config.(effects := e.(interlaceEnabled := delta > 0.0));
        case Save =>
        case Cancel =>
      }
    }

    /** Left arrow: one step down on the selected field. */
    method AdjustLeft(cat: Catalog)
      requires Valid() && cat.presets != []
      modifies this`config
      ensures Valid()
      ensures config == Adjusted(old(config), old(CurrentFields())[selected], -0.05, cat)
    {
      var fields := CurrentFields();
      if selected < |fields| {
        AdjustKeepsRow(config, currentTab, selected, -0.05, cat);
        AdjustField(fields[selected], -0.05, cat);
      }
    }

    /** Right arrow: one step up on the selected field. */
    method AdjustRight(cat: Catalog)
      requires Valid() && cat.presets != []
      modifies this`config
      ensures Valid()
      ensures config == Adjusted(old(config), old(CurrentFields())[selected], 0.05, cat)
    {
      var fields := CurrentFields();
      if selected < |fields| {
        AdjustKeepsRow(config, currentTab, selected, 0.05, cat);
        AdjustField(fields[selected], 0.05, cat);
      }
    }

    /** The switch Enter flips on `field`, if it is one. */
    method ToggleField(field: ConfigField, cat: Catalog)
      modifies this`config
      ensures config == Toggled(old(config), field, cat)
    {
      match field {
        case PerPaneCrt =>
          config := config.(perPaneCrt := !config.perPaneCrt);
        case BezelEnabled =>
          config := config.(effects := config.effects.(bezelEnabled := !config.effects.bezelEnabled));
        case AutoCopySelection =>
          config := config.(behavior := config.behavior.(autoCopySelection := !config.behavior.autoCopySelection));
        case ShowStartupHint =>
          config := config.(behavior := config.behavior.(showStartupHint := !config.behavior.showStartupHint));
        case FontType =>
          if config.bdfFont.Some? {
            config := config.(bdfFont := None);
          } else {
            config := config.(bdfFont := Some(cat.fixed9x18));
          }
        case ScanlineMode =>
          var mode := match config.effects.scanlineMode case RowBased => Pixel case Pixel => RowBased;
          config := config.(effects := config.effects.(scanlineMode := mode));
        case BeamSimulation =>
          config := config.(effects := config.effects.(beamSimulationEnabled := !config.effects.beamSimulationEnabled));
        case Interlace =>
          config := config.(effects := config.effects.(interlaceEnabled := !config.effects.interlaceEnabled));
        case _ =>
      }
    }

    /** Enter: flips the selected toggle, or reports Save or Cancel. */
    method ToggleOrActivate(cat: Catalog) returns (action: Option<ConfigAction>)
      modifies this`config
      ensures old(Valid()) ==> Valid()
      ensures (config, action) == Activate(old(config), currentTab, selected, cat)
    {
      var fields := CurrentFields();
      if selected >= |fields| {
        return None;
      }
      var field := fields[selected];
      ToggleKeepsRow(config, currentTab, selected, cat);
      ToggleField(field, cat);
      if field.Save? {
        action := Some(SaveAction);
      } else if field.Cancel? {
        action := Some(CancelAction);
      } else {
        action := None;
      }
    }

    /** `panel_height`, counting each tab's rows field by field. */
    method PanelHeight() returns (h: nat)
      ensures h == PanelHeightOf(config)
    {
      var maxRows := 0;
      for t := 0 to |TABS|
        invariant maxRows == MaxRowsUpTo(config, t)
      {
        var fields := FieldsForTab(TABS[t], config);
        var rows := 0;
        for i := 0 to |fields|
          invariant rows == |Layout(fields, i)|
        {
          if i > 0 && HasSeparatorBefore(fields[i]) {
            rows := rows + 1;
          }
          rows := rows + 1;
        }
        maxRows := Max(maxRows, rows);
      }
      maxRows := Max(maxRows, 6);
      h := 4 + maxRows;
    }

    /** `render`: the overlay's cells, row by row, around a panel as high
        as `panel_height` says (`ScreenAt` reads off each cell). */
    method Render(widthCells: nat, heightCells: nat, cat: Catalog) returns (rows: seq<seq<Cell>>)
      ensures rows == ScreenRows(config, currentTab, selected, cat, PanelHeightOf(config), widthCells, heightCells, heightCells)
    {
      var panelHeight := PanelHeight();
      PanelFits(config, currentTab);
      rows := RenderScreen(config, currentTab, selected, cat, panelHeight, widthCells, heightCells);
    }
  }
}
