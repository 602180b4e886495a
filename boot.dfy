/**
 * The configuration of the desk bundle and the gating `boot` applies to it:
 * which operations run, and in which order, for a given configuration.
 */
module Boot {
  import opened Wrappers

  datatype Config = Config(
    enableDarkModeToggle: bool,
    sidebarCollapsedByDefault: bool,
    customBrandText: Option<string>,
    customBrandLogo: Option<string>,
    hidePoweredBy: bool,
    bodyClass: string)

  /** The configuration the bundle ships with. */
  const CONFIG: Config := Config(
    enableDarkModeToggle := false,
    sidebarCollapsedByDefault := false,
    customBrandText := None,
    customBrandLogo := Some("/assets/pluto_theme/images/logo-neural.png"),
    hidePoweredBy := false,
    bodyClass := "pluto-theme")

  /** The body class `collapseSidebar` adds. */
  const SidebarCollapsedClass: string := "pluto-sidebar-collapsed"

  /** JavaScript truthiness of a nullable string: not null and not empty. */
  predicate Truthy(s: Option<string>) {
    s.Some? && s.value != ""
  }

  /** Tab, line feed, form feed, carriage return and space. */
  predicate IsAsciiWhitespace(ch: char) {
    ch == '\t' || ch == '\n' || ch == '\U{000C}' || ch == '\r' || ch == ' '
  }

  /**
   * What `classList.add` accepts: an empty token throws a SyntaxError, a
   * token holding ASCII whitespace an InvalidCharacterError.
   */
  predicate ValidToken(s: string) {
    s != "" && forall i :: 0 <= i < |s| ==> !IsAsciiWhitespace(s[i])
  }

  /** The operations `boot` performs, named after the helper it calls. */
  datatype Effect =
    | BodyClass(name: string)
    | BrandText(text: string)
    | BrandLogo(url: string)
    | PoweredByHidden
    | DarkModeToggle
    | SidebarCollapsed
    | ModuleIcons

  /** The optional calls of `boot`, in the order of its body. */
  function OptionalPlan(c: Config): seq<Effect> {
    [ BrandText(c.customBrandText.GetOr("")),
      BrandLogo(c.customBrandLogo.GetOr("")),
      PoweredByHidden,
      DarkModeToggle,
      SidebarCollapsed ]
  }

  /** Every call `boot` can make, in the order of its body. */
  function Planned(c: Config): seq<Effect> {
    [BodyClass(c.bodyClass)] + OptionalPlan(c) + [ModuleIcons]
  }

  /** The guard `boot` puts in front of each call. */
  predicate Enabled(c: Config, e: Effect) {
    match e
    case BodyClass(_) => true
    case BrandText(_) => Truthy(c.customBrandText)
    case BrandLogo(_) => Truthy(c.customBrandLogo)
    case PoweredByHidden => c.hidePoweredBy
    case DarkModeToggle => c.enableDarkModeToggle
    case SidebarCollapsed => c.sidebarCollapsedByDefault
    case ModuleIcons => true
  }

  /** The call `e` if its guard holds, nothing otherwise. */
  function Kept(c: Config, e: Effect): seq<Effect> {
    if Enabled(c, e) then [e] else []
  }

  /** The calls of `s` whose guard holds, in their order. */
  function Guarded(c: Config, s: seq<Effect>): (r: seq<Effect>)
    ensures |r| <= |s|
  {
    if s == [] then []
    else Guarded(c, s[..|s| - 1]) + Kept(c, s[|s| - 1])
  }

  /** A call is kept iff its guard holds. */
  lemma {:induction false} GuardedMembers(c: Config, s: seq<Effect>, e: Effect)
    ensures e in Guarded(c, s) <==> e in s && Enabled(c, e)
  {
    if s != [] {
      GuardedMembers(c, s[..|s| - 1], e);
      assert s == s[..|s| - 1] + [s[|s| - 1]];
    }
  }

  /** Guarding one more call of `s` adds it iff its guard holds. */
  lemma GuardedSnoc(c: Config, s: seq<Effect>, k: nat)
    requires k < |s|
    ensures Guarded(c, s[..k + 1]) == Guarded(c, s[..k]) + Kept(c, s[k])
  {
    assert s[..k + 1][..k] == s[..k];
  }

  /** Guarding distributes over the concatenation of two lists of calls. */
  lemma {:induction false} GuardedAppend(c: Config, a: seq<Effect>, b: seq<Effect>)
    ensures Guarded(c, a + b) == Guarded(c, a) + Guarded(c, b)
  {
    if b != [] {
      assert (a + b)[..|a + b| - 1] == a + b[..|b| - 1];
      GuardedAppend(c, a, b[..|b| - 1]);
    } else {
      assert a + b == a;
    }
  }

  /**
   * The operations `boot` runs for configuration `c`, in order. When the
   * body class is not a valid token, `classList.add` throws and nothing runs.
   */
  function Effects(c: Config): seq<Effect> {
    if ValidToken(c.bodyClass) then Guarded(c, Planned(c)) else []
  }

  /** The optional operations `boot` runs, in order. */
  function OptionalEffects(c: Config): seq<Effect> {
    Guarded(c, OptionalPlan(c))
  }

  /** Running the guarded optional calls one after another, from log `l`, adds `OptionalEffects` to it. */
  lemma OptionalSteps(c: Config, l: seq<Effect>)
    ensures l + Kept(c, BrandText(c.customBrandText.GetOr(""))) + Kept(c, BrandLogo(c.customBrandLogo.GetOr("")))
              + Kept(c, PoweredByHidden) + Kept(c, DarkModeToggle) + Kept(c, SidebarCollapsed)
            == l + OptionalEffects(c)
  {
    var op := OptionalPlan(c);
    assert op[..0] == [] && op[..5] == op;
    GuardedSnoc(c, op, 0);
    assert l + Kept(c, op[0]) == l + Guarded(c, op[..1]);
    PrefixStep(c, l, op, 1);
    PrefixStep(c, l, op, 2);
    PrefixStep(c, l, op, 3);
    PrefixStep(c, l, op, 4);
  }

  /** Logging one more guarded call after the guarded prefix `s[..k]` logs the prefix `s[..k + 1]`. */
  lemma PrefixStep(c: Config, l: seq<Effect>, s: seq<Effect>, k: nat)
    requires k < |s|
    ensures l + Guarded(c, s[..k]) + Kept(c, s[k]) == l + Guarded(c, s[..k + 1])
  {
    GuardedSnoc(c, s, k);
  }

  /** Past the body class, `boot` runs the body class, then the optional operations, then the icon replacement. */
  lemma EffectsSplit(c: Config)
    requires ValidToken(c.bodyClass)
    ensures Effects(c) == [BodyClass(c.bodyClass)] + OptionalEffects(c) + [ModuleIcons]
  {
    var bc, op, mi := [BodyClass(c.bodyClass)], OptionalPlan(c), [ModuleIcons];
    GuardedAppend(c, bc + op, mi);
    GuardedAppend(c, bc, op);
    assert Guarded(c, bc) == bc by { assert bc[..0] == []; }
    assert Guarded(c, mi) == mi by { assert mi[..0] == []; }
  }

  /**
   * `boot` adds the body class first and replaces the icons last, unless
   * `classList.add` rejects the body class, in which case nothing runs.
   */
  lemma BootOrder(c: Config)
    ensures ValidToken(c.bodyClass) ==> 2 <= |Effects(c)| && Effects(c)[0] == BodyClass(c.bodyClass) && Effects(c)[|Effects(c)| - 1] == ModuleIcons
    ensures !ValidToken(c.bodyClass) ==> Effects(c) == []
  {
    if ValidToken(c.bodyClass) {
      EffectsSplit(c);
    }
  }

  /** `hidePoweredByBadge`, `injectDarkModeToggle` and `collapseSidebar` are each called iff boot gets past the body class and their flag is set. */
  lemma BootFlags(c: Config)
    ensures PoweredByHidden in Effects(c) <==> ValidToken(c.bodyClass) && c.hidePoweredBy
    ensures DarkModeToggle in Effects(c) <==> ValidToken(c.bodyClass) && c.enableDarkModeToggle
    ensures SidebarCollapsed in Effects(c) <==> ValidToken(c.bodyClass) && c.sidebarCollapsedByDefault
  {
    GuardedMembers(c, Planned(c), PoweredByHidden);
    GuardedMembers(c, Planned(c), DarkModeToggle);
    GuardedMembers(c, Planned(c), SidebarCollapsed);
  }

  /** `setBrandText` is called iff boot gets past the body class and `customBrandText` is truthy, and then with that text. */
  lemma BootBrandText(c: Config)
    ensures (exists t :: BrandText(t) in Effects(c)) <==> ValidToken(c.bodyClass) && Truthy(c.customBrandText)
    ensures forall t :: BrandText(t) in Effects(c) ==> Truthy(c.customBrandText) && Some(t) == c.customBrandText
  {
    if ValidToken(c.bodyClass) {
      if Truthy(c.customBrandText) {
        GuardedMembers(c, Planned(c), BrandText(c.customBrandText.value));
      }
      forall t | BrandText(t) in Effects(c) ensures Truthy(c.customBrandText) && Some(t) == c.customBrandText {
        GuardedMembers(c, Planned(c), BrandText(t));
      }
    }
  }

  /** `setBrandLogo` is called iff boot gets past the body class and `customBrandLogo` is truthy, and then with that URL. */
  lemma BootBrandLogo(c: Config)
    ensures (exists u :: BrandLogo(u) in Effects(c)) <==> ValidToken(c.bodyClass) && Truthy(c.customBrandLogo)
    ensures forall u :: BrandLogo(u) in Effects(c) ==> Truthy(c.customBrandLogo) && Some(u) == c.customBrandLogo
  {
    if ValidToken(c.bodyClass) {
      if Truthy(c.customBrandLogo) {
        GuardedMembers(c, Planned(c), BrandLogo(c.customBrandLogo.value));
      }
      forall u | BrandLogo(u) in Effects(c) ensures Truthy(c.customBrandLogo) && Some(u) == c.customBrandLogo {
        GuardedMembers(c, Planned(c), BrandLogo(u));
      }
    }
  }

  /**
   * With the shipped configuration, `boot` adds the body class, calls
   * `setBrandLogo` with the shipped URL and calls `replaceModuleIcons`, and
   * calls nothing else. Whether the image changes and whether the icons are
   * injected at once is up to the page (`Page.Document.Boot`).
   */
  lemma ShippedConfigEffects()
    ensures Effects(CONFIG) == [BodyClass("pluto-theme"), BrandLogo("/assets/pluto_theme/images/logo-neural.png"), ModuleIcons]
  {
    var c := CONFIG;
    assert ValidToken(c.bodyClass);
    EffectsSplit(c);
    var logo := [BrandLogo("/assets/pluto_theme/images/logo-neural.png")];
    OptionalSteps(c, []);
    assert Kept(c, BrandText(c.customBrandText.GetOr(""))) == [];
    assert Kept(c, BrandLogo(c.customBrandLogo.GetOr(""))) == logo;
    assert Kept(c, PoweredByHidden) == Kept(c, DarkModeToggle) == Kept(c, SidebarCollapsed) == [];
    assert [] + OptionalEffects(c) == OptionalEffects(c);
    assert [] + [] + logo + [] + [] + [] == logo;
  }
}
