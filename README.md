# Pluto theme desk bundle — a Dafny model

This project models the runtime part of the Pluto theme: the JavaScript bundle
`pluto_theme/public/js/pluto_theme.bundle.js`, which runs on every desk page of
the host framework. The model covers four parts of the bundle:

- **`boot`** reads the `CONFIG` object. It adds the body class, runs each
  optional customisation whose field is truthy, and then calls
  `replaceModuleIcons`. The optional customisations are the brand text, the
  brand logo, hiding the "Powered by" badge, the dark-mode toggle and the
  collapsed sidebar.
- **`_injectIcons`** upserts the `CUSTOM_ICONS` table into the `#frappe-symbols`
  sprite sheet. For each table key, the first child `<symbol>` with that id gets
  the table's markup. When no child has that id, a new 16×16 symbol is appended.
- **`replaceModuleIcons`** injects at once when the sprite sheet is present.
  Otherwise it waits on a `MutationObserver`. On the first mutation batch that
  finds the sprite, it disconnects and injects.
- **`injectDarkModeToggle`** prepends a toggle to the navbar. Its icon reflects
  the `pluto_dark_mode` storage flag. Each click flips the root element's
  `data-theme` attribute, stores the matching flag and updates the icon.

Modules:

- `Wrappers` holds the `Option` type. Each DOM lookup of the bundle is an
  `Option`, or a nullable reference for the sprite sheet, which is `None` or
  `null` when the selector matches nothing.
- `Icons` holds the following:
  - `Symbol` records, the table and the `CUSTOM_ICONS` constant.
  - `Inject` and its properties, which specify the upsert.
  - The `Sprite` class, whose `InjectIcons` method runs the bundle's loop in
    place and is proved equal to `Inject`.
- `DarkMode` holds the three cells the toggle touches (attribute, stored flag
  and icon), the state after injection and the click transition.
- `Boot` holds `Config`, the shipped `CONFIG`, and `Effects(c)`. `Effects(c)` is
  the ordered list of operations `boot` performs for configuration `c`.
- `Page` holds two classes:
  - The `Document` class holds the page's mutable cells. Its methods are the
    bundle's helpers, `boot` and a click on a toggle. Each helper that `boot`
    calls records its call in a ghost log, and `Boot` is proved to log
    exactly `Effects(c)`. Clicks are not logged.
  - The `SpriteWatch` class is the observer state machine of
    `replaceModuleIcons`.

Behaviours of the code that the model keeps as written:

- The code overwrites only the first match that `querySelector` returns, so a
  host sprite that already repeats an id keeps the later copies untouched
  (`InjectLeavesOthers`). Every table id is on exactly one symbol only when
  the host sprite had unique ids (`InjectPreservesUniqueIds`).
- The code tests JavaScript truthiness, so an empty brand text or logo string
  is skipped like `null` (`Boot.Truthy`).
- After injection, the toggle's icon follows the **stored flag**, not the
  attribute. Suppose the host already set `data-theme="dark"` and no `"true"`
  flag is stored. Then the moon icon is shown while the page is dark.
  `InitIconMatches` states exactly when the icon agrees with the attribute.
- `classList.add` throws on an empty token or on a token containing ASCII
  whitespace, which aborts the rest of `boot`. With such a `bodyClass`, the
  model runs nothing (`Boot.BootOrder`, `Page.Document.Boot`).
- The brand-text selector `.navbar-brand .app-logo, .navbar-brand` always
  finds the first `.navbar-brand`, because an element comes before its own
  descendants in tree order; the `.app-logo` alternative never wins.
  Assigning its `textContent` removes its children. When the brand image is
  inside it, a custom brand text therefore removes the image, and the
  `setBrandLogo` that follows finds nothing (`Page.BrandLogoAfter`,
  `Page.CustomTextDropsLogo`).

## Model

| member | source | states |
|---|---|---|
| Icons.FindIndex | pluto_theme/public/js/pluto_theme.bundle.js:196 | `querySelector("#" + id)` on the children: the result is the first index holding `id`, with no earlier match, or `None` when no child holds it |
| Icons.Lookup | pluto_theme/public/js/pluto_theme.bundle.js:198-207 | `CUSTOM_ICONS[id]` is defined exactly when some table entry has key `id` |
| Icons.Upsert | pluto_theme/public/js/pluto_theme.bundle.js:196-209 | one callback run. It keeps the length when a child matches and otherwise appends `NewSymbol` (viewBox "0 0 16 16"). It keeps every child's id and viewBox, and changes no child other than the first match, whose content becomes the entry's markup |
| Icons.Inject | pluto_theme/public/js/pluto_theme.bundle.js:194-211 | the upsert never removes children and adds at most one per table entry |
| Icons.Absent | pluto_theme/public/js/pluto_theme.bundle.js:199-208 | the table entries the sprite lacks: every such entry is in the list, and nothing else is |
| Icons.InjectKeepsExisting | pluto_theme/public/js/pluto_theme.bundle.js:196-198 | for any table, repeated keys included, the pre-existing children stay in place. The first child carrying a table id gets that id's markup; every other child is unchanged |
| Icons.InjectLeavesOthers | pluto_theme/public/js/pluto_theme.bundle.js:195-210 | pointwise: a child keeps its id and viewBox. It is untouched when its id is in no table entry, and untouched when it is not the first child with that id |
| Icons.InjectAppends | pluto_theme/public/js/pluto_theme.bundle.js:199-208 | with distinct keys, the result is the overwritten pre-existing children followed by one new symbol per absent entry, in table order. The child count grows by exactly the number of absent ids |
| Icons.InjectInstalls | pluto_theme/public/js/pluto_theme.bundle.js:194-210 | with distinct keys, every table id is found in the result, and the child found holds that entry's markup |
| Icons.InjectIdempotent | pluto_theme/public/js/pluto_theme.bundle.js:194-210 | with distinct keys, injecting twice gives the same children as injecting once, which is why the re-run on each route change is harmless |
| Icons.InjectPreservesUniqueIds | pluto_theme/public/js/pluto_theme.bundle.js:196-208 | a sprite with no repeated ids still has none after the upsert |
| Icons.CustomIconsDistinct | pluto_theme/public/js/pluto_theme.bundle.js:76-167 | `CUSTOM_ICONS` has seventeen pairwise different keys |
| Icons.Sprite.FindSymbol | pluto_theme/public/js/pluto_theme.bundle.js:196 | the scan of the children returns `FindIndex` of the current children |
| Icons.Sprite.InjectIcons | pluto_theme/public/js/pluto_theme.bundle.js:194-211 | the in-place `forEach` leaves the children equal to `Inject` of the old children and the table |
| DarkMode.AfterInit | pluto_theme/public/js/pluto_theme.bundle.js:248-258 | storage is only read. The icon is the sun iff the stored flag is "true". A stored "true" makes the attribute dark; any other value leaves it as it was |
| DarkMode.Click | pluto_theme/public/js/pluto_theme.bundle.js:262-275 | a click makes the attribute dark iff it was not dark. Afterwards the attribute is dark or absent, the flag is "true"/"false" to match, and the icon is the sun iff dark |
| DarkMode.InitIconMatches | pluto_theme/public/js/pluto_theme.bundle.js:248-258 | after injection, the icon agrees with the attribute iff the flag is "true" or the attribute was not already dark |
| DarkMode.ClickTwiceRestoresTheme | pluto_theme/public/js/pluto_theme.bundle.js:262-275 | two clicks restore the attribute iff it started dark or absent |
| DarkMode.ClickTwiceSettled | pluto_theme/public/js/pluto_theme.bundle.js:262-275 | from any state a click produces, two further clicks restore all three cells |
| DarkMode.FreshRoundTrip | pluto_theme/public/js/pluto_theme.bundle.js:248-275 | from no flag and no attribute, the moon is shown. The first click stores "true" and turns dark; the second stores "false" and removes the attribute |
| Boot.GuardedMembers | pluto_theme/public/js/pluto_theme.bundle.js:46-64 | a planned call is performed iff its guard holds |
| Boot.GuardedAppend | pluto_theme/public/js/pluto_theme.bundle.js:43-67 | guarding a sequence of consecutive calls is guarding each part in turn |
| Boot.EffectsSplit | pluto_theme/public/js/pluto_theme.bundle.js:43-67 | past the body class, `boot` performs the body class, then the guarded optional calls in body order, then the icon replacement |
| Boot.OptionalSteps | pluto_theme/public/js/pluto_theme.bundle.js:46-64 | the five guarded `if` statements run one after another log exactly the optional effects |
| Boot.BootOrder | pluto_theme/public/js/pluto_theme.bundle.js:43-67 | with a valid body class, the body class comes first and the icon replacement last; with an invalid one, nothing runs |
| Boot.BootFlags | pluto_theme/public/js/pluto_theme.bundle.js:54-64 | `hidePoweredByBadge`, `injectDarkModeToggle` and `collapseSidebar` are each called iff boot gets past the body class and their flag is set |
| Boot.BootBrandText | pluto_theme/public/js/pluto_theme.bundle.js:46-48 | `setBrandText` is called iff boot gets past the body class and `customBrandText` is truthy, and then only with that text |
| Boot.BootBrandLogo | pluto_theme/public/js/pluto_theme.bundle.js:50-52 | `setBrandLogo` is called iff boot gets past the body class and `customBrandLogo` is truthy, and then only with that URL |
| Boot.ShippedConfigEffects | pluto_theme/public/js/pluto_theme.bundle.js:20-38 | with the shipped `CONFIG`, boot adds "pluto-theme", calls `setBrandLogo` with "/assets/pluto_theme/images/logo-neural.png" and calls `replaceModuleIcons`, and calls nothing else |
| Page.Document.AddBodyClass | pluto_theme/public/js/pluto_theme.bundle.js:44 | `classList.add` succeeds iff the token is non-empty and has no ASCII whitespace. On success, the class set gains the token |
| Page.Document.SetBrandText | pluto_theme/public/js/pluto_theme.bundle.js:216-219 | sets the text when the brand element exists and is a no-op otherwise; writing the text removes the brand image when that image lies inside the brand element |
| Page.BrandLogoAfter | pluto_theme/public/js/pluto_theme.bundle.js:46-52 | after the two brand calls, no brand image is left iff there was none or a custom brand text was written over the element holding it; otherwise its `src` is the configured logo when that is truthy, else the old one |
| Page.CustomTextDropsLogo | pluto_theme/public/js/pluto_theme.bundle.js:46-52 | with the image inside `.navbar-brand`, the shipped logo survives the shipped `CONFIG`, but adding a brand text leaves no image |
| Page.Document.SetBrandLogo | pluto_theme/public/js/pluto_theme.bundle.js:221-226 | sets the image `src` when the image exists and is a no-op otherwise |
| Page.Document.HidePoweredByBadge | pluto_theme/public/js/pluto_theme.bundle.js:228-231 | hides the badge when it exists and is a no-op otherwise |
| Page.Document.CollapseSidebar | pluto_theme/public/js/pluto_theme.bundle.js:236-238 | adds "pluto-sidebar-collapsed" to the body classes |
| Page.Document.InjectDarkModeToggle | pluto_theme/public/js/pluto_theme.bundle.js:243-278 | without a navbar, nothing changes. Otherwise the theme becomes `AfterInit`'s and a toggle with `AfterInit`'s icon is prepended to the navbar |
| Page.Document.ClickToggle | pluto_theme/public/js/pluto_theme.bundle.js:262-275 | the attribute, storage flag and own icon become `Click` of their old values; other toggles keep their icons |
| Page.Document.Boot | pluto_theme/public/js/pluto_theme.bundle.js:43-67 | the log gains exactly `Effects(c)`. With an invalid body class nothing changes and no watch starts. Otherwise each part of the page changes as its guarded helper makes it change (the brand image as `BrandLogoAfter` says), and the icons are injected iff the sprite is present |
| Page.Document.BootRest | pluto_theme/public/js/pluto_theme.bundle.js:46-66 | the part of `boot` after the body class: the optional operations, then a started `replaceModuleIcons` |
| Page.Document.RunOptional | pluto_theme/public/js/pluto_theme.bundle.js:46-64 | the five guarded calls log `OptionalEffects(c)`, and each page cell ends as its guarded helper leaves it |
| Page.Document.GuardedBrandText | pluto_theme/public/js/pluto_theme.bundle.js:46-48 | `setBrandText` runs iff `customBrandText` is truthy, and then the brand image is removed when it lies inside the brand element |
| Page.Document.GuardedBrandLogo | pluto_theme/public/js/pluto_theme.bundle.js:50-52 | `setBrandLogo` runs iff `customBrandLogo` is truthy |
| Page.Document.GuardedPoweredBy | pluto_theme/public/js/pluto_theme.bundle.js:54-56 | `hidePoweredByBadge` runs iff `hidePoweredBy` is set |
| Page.Document.GuardedDarkModeToggle | pluto_theme/public/js/pluto_theme.bundle.js:58-60 | `injectDarkModeToggle` runs iff `enableDarkModeToggle` is set |
| Page.Document.GuardedCollapseSidebar | pluto_theme/public/js/pluto_theme.bundle.js:62-64 | `collapseSidebar` runs iff `sidebarCollapsedByDefault` is set |
| Page.SpriteWatch.constructor | pluto_theme/public/js/pluto_theme.bundle.js:174-192 | with the sprite present, the icons are injected once and the watch is done. Otherwise the watch waits and nothing is injected |
| Page.SpriteWatch.OnMutations | pluto_theme/public/js/pluto_theme.bundle.js:180-186 | a waiting watch that sees the sprite disconnects and injects; otherwise nothing happens. Each watch injects at most once; two watches started while the sprite is missing inject once each |
| Page.SpriteArrivesLate | pluto_theme/public/js/pluto_theme.bundle.js:174-192 | a sprite that appears after the watch started is injected exactly once. Later batches do nothing, and a route-change re-run leaves the injected sprite as it is |
| Page.RouteChangeWhileWaiting | pluto_theme/public/js/pluto_theme.bundle.js:174-192 | a route change while the sprite is missing starts a second waiting observer; when the sprite arrives each observer injects once, and the sprite ends as after one injection |

## Left out

- The DOM itself is not modelled. Each element a selector finds is a field of `Document`, holding `None` or `null` when nothing matches. CSS selector matching is not modelled, including the comma selector lists at lines 217 and 245.
- `querySelector("#" + id)` searches all descendants of the sprite. The model searches only its direct `<symbol>` children, which is where `_injectIcons` appends.
- Symbols are values, not element objects, so identity and aliasing of DOM nodes are not modelled.
- `innerHTML` parsing, the SVG namespace of `createElementNS` and `style.display` are not modelled. SVG markup is an opaque string, and in `CUSTOM_ICONS` each one is named after the glyph it draws. The emoji glyphs are the two values of `Glyph`.
- `localStorage` is one cell for the `pluto_dark_mode` key.
- Page.Document.InjectDarkModeToggle: assumes `localStorage.getItem` never throws. Where storage is blocked it throws a `SecurityError`, which aborts `boot` before `collapseSidebar` and `replaceModuleIcons`; `Effects` and `Page.Document.Boot` do not capture that abort.
- Page.Document.ClickToggle: assumes `localStorage.setItem` never throws. When it throws (for example `QuotaExceededError`), the source leaves the attribute flipped and the icon not updated; the model always updates all three cells.
- Where a page has several `.navbar-brand` elements, the model does not capture that `.navbar-brand img` can find an image in another one after the brand text removed the first; `logoInBrand` is fixed for the whole page.
- The navbar is modelled only as the list of toggle icons prepended to it. The click event and `preventDefault` are not modelled; a click is the `ClickToggle` call.
- The asynchronous scheduling of `MutationObserver` is not modelled. Each mutation batch is an explicit `OnMutations` call.
- The jQuery `startup` handler, the `frappe.boot` fallback and the `frappe.router` registration at lines 285-300 are host event wiring and are not modelled. So two `boot` runs on one page (startup plus fallback) are not modelled either. The route-change re-run is stated through `InjectIdempotent` and the second watch in `SpriteArrivesLate`.
- The commented-out example at lines 305-312 is not modelled.
- `pluto_theme/hooks.py`, `setup.py` and `pluto_theme/config/desktop.py` hold static configuration and packaging only, and are not part of this model.
