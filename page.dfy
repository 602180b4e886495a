/**
 * The desk page as the bundle sees it, and the operations the bundle runs
 * on it. Each DOM lookup the bundle makes becomes a field holding `None`
 * (or `null`) when the selector matches nothing.
 */
module Page {
  import opened Wrappers
  import opened Icons
  import opened DarkMode
  import opened Boot

  /**
   * The `src` of the brand image once `boot` has made its two brand calls,
   * from the brand element `text`, the image `logo` and whether the image
   * lies inside the brand element. Assigning the brand element's
   * `textContent` removes every child of it, the image included, so
   * `setBrandLogo` then finds no image.
   */
  function BrandLogoAfter(c: Config, text: Option<string>, logo: Option<string>, logoInBrand: bool): (r: Option<string>)
    ensures r.None? <==> logo.None? || (Truthy(c.customBrandText) && text.Some? && logoInBrand)
    ensures r.Some? ==> r == if Truthy(c.customBrandLogo) then c.customBrandLogo else logo
  {
    var kept := if Truthy(c.customBrandText) && text.Some? && logoInBrand then None else logo;
    if Truthy(c.customBrandLogo) && kept.Some? then c.customBrandLogo else kept
  }

  /**
   * A page whose brand image sits inside its `.navbar-brand`: booting with a
   * custom brand text and the shipped logo leaves no brand image at all.
   */
  lemma CustomTextDropsLogo()
    ensures BrandLogoAfter(CONFIG.(customBrandText := Some("Acme")), Some("Frappe"), Some("/old.png"), true) == None
    ensures BrandLogoAfter(CONFIG, Some("Frappe"), Some("/old.png"), true) == CONFIG.customBrandLogo
  {
  }

  class Document {
    /** The class list of `<body>`. */
    var bodyClasses: set<string>
    /**
     * The text of the element `.navbar-brand .app-logo, .navbar-brand` finds,
     * if there is one. A selector list yields the first match in tree order,
     * and a `.navbar-brand` comes before any `.app-logo` inside it, so this
     * is the first `.navbar-brand`.
     */
    var brandText: Option<string>
    /** The `src` of `.navbar-brand img`, if such an element exists. */
    var brandLogoSrc: Option<string>
    /** Whether the image `.navbar-brand img` finds lies inside the element the brand text is written to. */
    const logoInBrand: bool
    /** Whether `.footer-powered` is hidden, if such an element exists. */
    var poweredByHidden: Option<bool>
    /** The icons of the toggles prepended to `.navbar-right, .navbar-nav:last-child`, if it exists. */
    var navbar: Option<seq<Glyph>>
    /** The `data-theme` attribute of the root element. */
    var theme: Option<string>
    /** The entry of `localStorage` under `DarkMode.StorageKey` ("pluto_dark_mode"). */
    var darkModeFlag: Option<string>
    /** The element with id `frappe-symbols`. */
    var sprite: Sprite?
    /** The operations `boot` has called, in order. */
    ghost var log: seq<Effect>

    constructor (bodyClasses: set<string>, brandText: Option<string>, brandLogoSrc: Option<string>, logoInBrand: bool,
                 poweredByHidden: Option<bool>, navbar: Option<seq<Glyph>>, theme: Option<string>,
                 darkModeFlag: Option<string>, sprite: Sprite?)
      ensures this.bodyClasses == bodyClasses && this.brandText == brandText
      ensures this.brandLogoSrc == brandLogoSrc && this.logoInBrand == logoInBrand && this.poweredByHidden == poweredByHidden
      ensures this.navbar == navbar && this.theme == theme && this.darkModeFlag == darkModeFlag
      ensures this.sprite == sprite && log == []
    {
      this.bodyClasses, this.brandText, this.brandLogoSrc, this.logoInBrand := bodyClasses, brandText, brandLogoSrc, logoInBrand;
      this.poweredByHidden, this.navbar, this.theme := poweredByHidden, navbar, theme;
      this.darkModeFlag, this.sprite, log := darkModeFlag, sprite, [];
    }

    /** `document.body.classList.add(name)`; `ok` is false when it throws. */
    method AddBodyClass(name: string) returns (ok: bool)
      modifies this`bodyClasses, this`log
      ensures ok == ValidToken(name)
      ensures bodyClasses == if ok then old(bodyClasses) + {name} else old(bodyClasses)
      ensures log == if ok then old(log) + [BodyClass(name)] else old(log)
    {
      ok := name != "";
      var i := 0;
      while ok && i < |name|
        invariant 0 <= i <= |name|
        invariant ok == (name != "" && forall j :: 0 <= j < i ==> !IsAsciiWhitespace(name[j]))
      {
        if IsAsciiWhitespace(name[i]) {
          ok := false;
        }
        i := i + 1;
      }
      if ok {
        bodyClasses := bodyClasses + {name};
        log := log + [BodyClass(name)];
      }
    }

    /**
     * `setBrandText`: a no-op when the brand element is missing. Otherwise
     * its `textContent` becomes `text`, which removes the brand image when
     * that image lies inside it.
     */
    method SetBrandText(text: string)
      modifies this`brandText, this`brandLogoSrc, this`log
      ensures brandText == if old(brandText).Some? then Some(text) else None
      ensures brandLogoSrc == if old(brandText).Some? && logoInBrand then None else old(brandLogoSrc)
      ensures log == old(log) + [BrandText(text)]
    {
      if brandText.Some? {
        brandText := Some(text);
        if logoInBrand {
          brandLogoSrc := None;
        }
      }
      log := log + [BrandText(text)];
    }

    /** `setBrandLogo`: a no-op when the brand image is missing. */
    method SetBrandLogo(url: string)
      modifies this`brandLogoSrc, this`log
      ensures brandLogoSrc == if old(brandLogoSrc).Some? then Some(url) else None
      ensures log == old(log) + [BrandLogo(url)]
    {
      if brandLogoSrc.Some? {
        brandLogoSrc := Some(url);
      }
      log := log + [BrandLogo(url)];
    }

    /** `hidePoweredByBadge`: a no-op when the badge is missing. */
    method HidePoweredByBadge()
      modifies this`poweredByHidden, this`log
      ensures poweredByHidden == if old(poweredByHidden).Some? then Some(true) else None
      ensures log == old(log) + [PoweredByHidden]
    {
      if poweredByHidden.Some? {
        poweredByHidden := Some(true);
      }
      log := log + [PoweredByHidden];
    }

    /** `collapseSidebar`. */
    method CollapseSidebar()
      modifies this`bodyClasses, this`log
      ensures bodyClasses == old(bodyClasses) + {SidebarCollapsedClass}
      ensures log == old(log) + [SidebarCollapsed]
    {
      bodyClasses := bodyClasses + {SidebarCollapsedClass};
      log := log + [SidebarCollapsed];
    }

    /**
     * `injectDarkModeToggle`: without a navbar nothing changes; otherwise a
     * stored "true" turns the theme dark and a toggle showing the glyph of
     * `AfterInit` is prepended to the navbar. Storage is only read.
     */
    method InjectDarkModeToggle()
      modifies this`theme, this`navbar, this`log
      ensures log == old(log) + [DarkModeToggle]
      ensures old(navbar).None? ==> navbar.None? && theme == old(theme)
      ensures old(navbar).Some? ==>
                var c := AfterInit(old(theme), darkModeFlag);
                theme == c.theme && navbar == Some([c.icon] + old(navbar).value)
    {
      log := log + [DarkModeToggle];
      if navbar.None? {
        return;
      }
      var stored := darkModeFlag;
      if stored == Some("true") {
        theme := Some("dark");
      }
      var icon := if stored == Some("true") then Sun else Moon;
      navbar := Some([icon] + navbar.value);
    }

    /**
     * The click handler of the toggle at position `k` of the navbar: it
     * flips the theme, stores the matching flag and sets its own icon; the
     * other toggles keep theirs.
     */
    method ClickToggle(k: nat)
      requires navbar.Some? && k < |navbar.value|
      modifies this`theme, this`darkModeFlag, this`navbar
      ensures navbar.Some? && |navbar.value| == |old(navbar).value|
      ensures Cells(theme, darkModeFlag, navbar.value[k]) == Click(Cells(old(theme), old(darkModeFlag), old(navbar).value[k]))
      ensures forall j :: 0 <= j < |navbar.value| && j != k ==> navbar.value[j] == old(navbar).value[j]
    {
      var isDark := theme == Some("dark");
      if isDark {
        theme := None;
        darkModeFlag := Some("false");
        navbar := Some(navbar.value[k := Moon]);
      } else {
        theme := Some("dark");
        darkModeFlag := Some("true");
        navbar := Some(navbar.value[k := Sun]);
      }
    }

    /**
     * `boot` for configuration `c`: the log gains exactly `Effects(c)`, and
     * each part of the page changes as the operation gated on its field
     * makes it change. When the body class is rejected, boot stops before
     * anything else and no watch is started.
     */
    method Boot(c: Config) returns (watch: SpriteWatch?)
      modifies this`bodyClasses, this`brandText, this`brandLogoSrc, this`poweredByHidden
      modifies this`theme, this`navbar, this`log, sprite
      ensures log == old(log) + Effects(c)
      ensures sprite == old(sprite) && darkModeFlag == old(darkModeFlag)
      ensures (watch != null) == ValidToken(c.bodyClass)
      ensures !ValidToken(c.bodyClass) ==>
                && bodyClasses == old(bodyClasses) && brandText == old(brandText)
                && brandLogoSrc == old(brandLogoSrc) && poweredByHidden == old(poweredByHidden)
                && theme == old(theme) && navbar == old(navbar)
                && (sprite != null ==> sprite.symbols == old(sprite.symbols))
      ensures ValidToken(c.bodyClass) ==>
                && fresh(watch) && watch.doc == this && watch.Valid()
                && (watch.state == Done <==> sprite != null)
                && (sprite != null ==> sprite.symbols == Inject(old(sprite.symbols), CustomIcons))
                && bodyClasses == old(bodyClasses) + {c.bodyClass} + (if c.sidebarCollapsedByDefault then {SidebarCollapsedClass} else {})
                && brandText == (if Truthy(c.customBrandText) && old(brandText).Some? then c.customBrandText else old(brandText))
                && brandLogoSrc == BrandLogoAfter(c, old(brandText), old(brandLogoSrc), logoInBrand)
                && poweredByHidden == (if c.hidePoweredBy && old(poweredByHidden).Some? then Some(true) else old(poweredByHidden))
                && (if c.enableDarkModeToggle && old(navbar).Some?
                    then theme == AfterInit(old(theme), darkModeFlag).theme
                         && navbar == Some([AfterInit(old(theme), darkModeFlag).icon] + old(navbar).value)
                    else theme == old(theme) && navbar == old(navbar))
    {
      var ok := AddBodyClass(c.bodyClass);
      if ok {
        EffectsSplit(c);
        watch := BootRest(c);
      } else {
        watch := null;
      }
    }

    /** What `boot` does once the body class is added: the optional operations, then `replaceModuleIcons`. */
    method BootRest(c: Config) returns (watch: SpriteWatch)
      modifies this`bodyClasses, this`brandText, this`brandLogoSrc, this`poweredByHidden
      modifies this`theme, this`navbar, this`log, sprite
      ensures log == old(log) + OptionalEffects(c) + [ModuleIcons]
      ensures fresh(watch) && watch.doc == this && watch.Valid()
      ensures watch.state == Done <==> sprite != null
      ensures sprite != null ==> sprite.symbols == Inject(old(sprite.symbols), CustomIcons)
      ensures bodyClasses == old(bodyClasses) + (if c.sidebarCollapsedByDefault then {SidebarCollapsedClass} else {})
      ensures brandText == (if Truthy(c.customBrandText) && old(brandText).Some? then c.customBrandText else old(brandText))
      ensures brandLogoSrc == BrandLogoAfter(c, old(brandText), old(brandLogoSrc), logoInBrand)
      ensures poweredByHidden == (if c.hidePoweredBy && old(poweredByHidden).Some? then Some(true) else old(poweredByHidden))
      ensures if c.enableDarkModeToggle && old(navbar).Some?
              then theme == AfterInit(old(theme), darkModeFlag).theme
                   && navbar == Some([AfterInit(old(theme), darkModeFlag).icon] + old(navbar).value)
              else theme == old(theme) && navbar == old(navbar)
    {
      RunOptional(c);
      watch := new SpriteWatch(this);
      log := log + [ModuleIcons];
    }

    /** The five optional operations of `boot`, each run iff its configuration field is truthy. */
    method RunOptional(c: Config)
      modifies this`bodyClasses, this`brandText, this`brandLogoSrc, this`poweredByHidden
      modifies this`theme, this`navbar, this`log
      ensures log == old(log) + OptionalEffects(c)
      ensures bodyClasses == old(bodyClasses) + (if c.sidebarCollapsedByDefault then {SidebarCollapsedClass} else {})
      ensures brandText == (if Truthy(c.customBrandText) && old(brandText).Some? then c.customBrandText else old(brandText))
      ensures brandLogoSrc == BrandLogoAfter(c, old(brandText), old(brandLogoSrc), logoInBrand)
      ensures poweredByHidden == (if c.hidePoweredBy && old(poweredByHidden).Some? then Some(true) else old(poweredByHidden))
      ensures if c.enableDarkModeToggle && old(navbar).Some?
              then theme == AfterInit(old(theme), darkModeFlag).theme
                   && navbar == Some([AfterInit(old(theme), darkModeFlag).icon] + old(navbar).value)
              else theme == old(theme) && navbar == old(navbar)
    {
      OptionalSteps(c, log);
      GuardedBrandText(c);
      GuardedBrandLogo(c);
      GuardedPoweredBy(c);
      GuardedDarkModeToggle(c);
      GuardedCollapseSidebar(c);
    }

    /** `if (CONFIG.customBrandText) setBrandText(CONFIG.customBrandText)`. */
    method GuardedBrandText(c: Config)
      modifies this`brandText, this`brandLogoSrc, this`log
      ensures brandText == (if Truthy(c.customBrandText) && old(brandText).Some? then c.customBrandText else old(brandText))
      ensures brandLogoSrc == if Truthy(c.customBrandText) && old(brandText).Some? && logoInBrand then None else old(brandLogoSrc)
      ensures log == old(log) + Kept(c, BrandText(c.customBrandText.GetOr("")))
    {
      if Truthy(c.customBrandText) {
        SetBrandText(c.customBrandText.value);
      }
    }

    /** `if (CONFIG.customBrandLogo) setBrandLogo(CONFIG.customBrandLogo)`. */
    method GuardedBrandLogo(c: Config)
      modifies this`brandLogoSrc, this`log
      ensures brandLogoSrc == (if Truthy(c.customBrandLogo) && old(brandLogoSrc).Some? then c.customBrandLogo else old(brandLogoSrc))
      ensures log == old(log) + Kept(c, BrandLogo(c.customBrandLogo.GetOr("")))
    {
      if Truthy(c.customBrandLogo) {
        SetBrandLogo(c.customBrandLogo.value);
      }
    }

    /** `if (CONFIG.hidePoweredBy) hidePoweredByBadge()`. */
    method GuardedPoweredBy(c: Config)
      modifies this`poweredByHidden, this`log
      ensures poweredByHidden == (if c.hidePoweredBy && old(poweredByHidden).Some? then Some(true) else old(poweredByHidden))
      ensures log == old(log) + Kept(c, PoweredByHidden)
    {
      if c.hidePoweredBy {
        HidePoweredByBadge();
      }
    }

    /** `if (CONFIG.enableDarkModeToggle) injectDarkModeToggle()`. */
    method GuardedDarkModeToggle(c: Config)
      modifies this`theme, this`navbar, this`log
      ensures log == old(log) + Kept(c, DarkModeToggle)
      ensures if c.enableDarkModeToggle && old(navbar).Some?
              then theme == AfterInit(old(theme), darkModeFlag).theme
                   && navbar == Some([AfterInit(old(theme), darkModeFlag).icon] + old(navbar).value)
              else theme == old(theme) && navbar == old(navbar)
    {
      if c.enableDarkModeToggle {
        InjectDarkModeToggle();
      }
    }

    /** `if (CONFIG.sidebarCollapsedByDefault) collapseSidebar()`. */
    method GuardedCollapseSidebar(c: Config)
      modifies this`bodyClasses, this`log
      ensures bodyClasses == old(bodyClasses) + (if c.sidebarCollapsedByDefault then {SidebarCollapsedClass} else {})
      ensures log == old(log) + Kept(c, SidebarCollapsed)
    {
      if c.sidebarCollapsedByDefault {
        CollapseSidebar();
      }
    }
  }

  /** Whether the `MutationObserver` of `replaceModuleIcons` is still connected. */
  datatype WatchState = Waiting | Done

  /**
   * One call of `replaceModuleIcons`: the sprite is injected at once when
   * present; otherwise an observer waits, and on the first mutation batch
   * that finds the sprite it disconnects and injects. `injections` counts
   * the runs of `_injectIcons` this call has made.
   */
  class SpriteWatch {
    const doc: Document
    var state: WatchState
    ghost var injections: nat

    /**
     * The ghost count of injections agrees with the state: one once
     * disconnected, none while waiting. It only follows the state; what keeps
     * the sprite from being injected twice is that `OnMutations` leaves the
     * symbols alone once the watch is `Done`.
     */
    ghost predicate Valid()
      reads this
    {
      injections == if state == Done then 1 else 0
    }

    /** `replaceModuleIcons()` on `doc`. */
    constructor (doc: Document)
      modifies doc.sprite
      ensures this.doc == doc && Valid()
      ensures state == (if doc.sprite != null then Done else Waiting)
      ensures doc.sprite != null ==> doc.sprite.symbols == Inject(old(doc.sprite.symbols), CustomIcons)
    {
      this.doc := doc;
      var present := doc.sprite;
      state := if present != null then Done else Waiting;
      injections := if present != null then 1 else 0;
      new;
      if present != null {
        present.InjectIcons(CustomIcons);
      }
    }

    /**
     * The observer's callback for one mutation batch. A disconnected
     * observer is never called again, so once `Done` nothing happens.
     */
    method OnMutations()
      requires Valid()
      modifies this, doc.sprite
      ensures Valid() && injections <= 1
      ensures state == if old(state) == Waiting && doc.sprite != null then Done else old(state)
      ensures doc.sprite != null ==>
                doc.sprite.symbols == if old(state) == Waiting then Inject(old(doc.sprite.symbols), CustomIcons) else old(doc.sprite.symbols)
    {
      if state == Waiting {
        var el := doc.sprite;
        if el != null {
          state, injections := Done, injections + 1;
          el.InjectIcons(CustomIcons);
        }
      }
    }
  }

  /**
   * The sprite sheet arrives after `replaceModuleIcons` has started waiting:
   * nothing is injected while it is missing, the first batch that sees it
   * injects once, later batches do nothing, and the re-run of the next route
   * change leaves the sprite as it is.
   */
  method SpriteArrivesLate(doc: Document, host: seq<Symbol>) returns (watch: SpriteWatch, sprite: Sprite)
    requires doc.sprite == null
    modifies doc
    ensures doc.sprite == sprite && sprite.symbols == Inject(host, CustomIcons)
    ensures watch.state == Done && watch.Valid() && watch.injections == 1
  {
    watch := new SpriteWatch(doc);
    watch.OnMutations();
    assert watch.state == Waiting && watch.injections == 0;
    sprite := new Sprite(host);
    doc.sprite := sprite;
    watch.OnMutations();
    ghost var injected := sprite.symbols;
    assert watch.state == Done && watch.injections == 1;
    watch.OnMutations();
    assert sprite.symbols == injected;
    CustomIconsDistinct();
    InjectIdempotent(host, CustomIcons);
    var again := new SpriteWatch(doc);
  }

  /**
   * A route change re-runs `replaceModuleIcons` while the sprite sheet is
   * still missing, so two observers wait at once. When the sprite arrives,
   * each injects once on its next batch; the second injection finds every
   * table id already present, so the sprite ends as after one injection.
   */
  method RouteChangeWhileWaiting(doc: Document, host: seq<Symbol>) returns (first: SpriteWatch, second: SpriteWatch, sprite: Sprite)
    requires doc.sprite == null
    modifies doc
    ensures doc.sprite == sprite && sprite.symbols == Inject(host, CustomIcons)
    ensures first.state == Done && first.Valid() && first.injections == 1
    ensures second.state == Done && second.Valid() && second.injections == 1
  {
    first := new SpriteWatch(doc);
    second := new SpriteWatch(doc);
    assert first.state == Waiting && second.state == Waiting;
    sprite := new Sprite(host);
    doc.sprite := sprite;
    first.OnMutations();
    assert sprite.symbols == Inject(host, CustomIcons);
    second.OnMutations();
    CustomIconsDistinct();
    InjectIdempotent(host, CustomIcons);
  }
}
