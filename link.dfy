/** The design-system `Link` (`app/components/design-system/Link/Link.tsx`):
    from its props it composes a class list and chooses the element to
    render, a plain anchor for external links and downloads, a plain anchor
    for in-page `#` links, and the framework's router link otherwise. */
module LinkDispatch {
  import opened Text
  import opened Results

  datatype Variant = Nav | Inline | Standalone | Cta

  /** The `download` prop: absent, a boolean, or a file name. */
  datatype Download = NoDownload | DownloadFlag(flag: bool) | DownloadName(name: string) {
    /** JavaScript truthiness of the value. */
    predicate Truthy() {
      match this
      case NoDownload => false
      case DownloadFlag(b) => b
      case DownloadName(n) => n != []
    }
  }

  /** JavaScript truthiness of an optional string. */
  predicate Present(s: Option<string>) {
    s.Some? && s.value != []
  }

  /** The class names the component's CSS module provides; a class the
      module does not define reads as the empty string. */
  datatype Styles = Styles(
    link: string, nav: string, inline: string, standalone: string, cta: string,
    navBlock: string, externalIcon: string)
  {
    /** `styles[variant]`. */
    function OfVariant(v: Variant): string {
      match v
      case Nav => nav
      case Inline => inline
      case Standalone => standalone
      case Cta => cta
    }
  }

  /** The props the component reads; `None` is a prop that was not passed. */
  datatype LinkProps = LinkProps(
    variant: Option<Variant>,
    blockLayout: Option<bool>,
    href: string,
    external: Option<bool>,
    download: Download,
    children: string,
    className: Option<string>,
    ariaLabel: Option<string>)
  {
    /** The destructuring defaults: variant `inline`, no block layout, not
        external. */
    function Variant(): Variant { if variant.Some? then variant.value else Inline }
    predicate BlockLayout() { blockLayout.Some? && blockLayout.value }
    predicate External() { external.Some? && external.value }
  }

  /** The elements `Link` can render. `Anchor` is an `<a>`; an attribute
      whose value is `undefined` is `None`. */
  datatype Element =
    | Anchor(className: string, href: string, target: Option<string>, rel: Option<string>,
             download: Download, ariaLabel: Option<string>, children: string, externalIcon: Option<string>)
    | RouterLink(className: string, href: string, ariaLabel: Option<string>, children: string)

  /** `xs.filter(Boolean)` on strings: the non-empty entries, in order. */
  function Truthy(xs: seq<string>): (r: seq<string>)
    ensures |r| <= |xs|
    ensures forall k :: 0 <= k < |r| ==> r[k] != [] && r[k] in xs
    ensures forall x :: x in xs && x != [] ==> x in r
  {
    if xs == [] then []
    else if xs[0] == [] then Truthy(xs[1..])
    else [xs[0]] + Truthy(xs[1..])
  }

  /** `filter` keeps order and multiplicity: filtering a concatenation is
      concatenating the filtered parts, and one entry is kept exactly when
      it is non-empty. */
  lemma {:induction false} TruthyAppend(a: seq<string>, b: seq<string>)
    ensures Truthy(a + b) == Truthy(a) + Truthy(b)
  {
    if a != [] {
      assert (a + b)[1..] == a[1..] + b;
      TruthyAppend(a[1..], b);
    } else {
      assert a + b == b;
    }
  }

  lemma TruthySingle(x: string)
    ensures Truthy([x]) == if x == [] then [] else [x]
  {
  }

  /** The candidate classes: the base class, the variant's class, the
      block-layout class when `blockLayout` holds, and the caller's class. */
  function ClassEntries(p: LinkProps, st: Styles): seq<string> {
    Truthy([st.link, st.OfVariant(p.Variant()),
            if p.BlockLayout() then st.navBlock else "",
            if p.className.Some? then p.className.value else ""])
  }

  /** `[...].filter(Boolean).join(' ')`. */
  function ClassName(p: LinkProps, st: Styles): string {
    Join(ClassEntries(p, st), ' ')
  }

  const NewTab := "_blank"
  const NoOpener := "noopener noreferrer"
  const NewTabNote := " (opens in new tab)"

  /** The rendered element. */
  function Link(p: LinkProps, st: Styles): (e: Element)
    ensures e.className == ClassName(p, st) && e.href == p.href && e.children == p.children
    // external links and downloads are plain anchors that open in a new tab
    // exactly when external, with the icon unless the variant is `cta`
    ensures (p.External() || p.download.Truthy()) ==>
      && e.Anchor?
      && e.download == p.download
      && (e.target == (if p.External() then Some(NewTab) else None))
      && (e.rel == (if p.External() then Some(NoOpener) else None))
      && (e.externalIcon.Some? <==> p.External() && p.Variant() != Cta)
      && (e.ariaLabel == if Present(p.ariaLabel) then p.ariaLabel
                         else if p.External() then Some(p.children + NewTabNote) else None)
    // in-page links are plain anchors without target, rel or icon
    ensures !(p.External() || p.download.Truthy()) && StartsWith(p.href, "#") ==>
      e == Anchor(ClassName(p, st), p.href, None, None, NoDownload, p.ariaLabel, p.children, None)
    // every other link goes through the router
    ensures !(p.External() || p.download.Truthy()) && !StartsWith(p.href, "#") ==>
      e == RouterLink(ClassName(p, st), p.href, p.ariaLabel, p.children)
  {
    var cls := ClassName(p, st);
    var ext := p.External();
    if ext || p.download.Truthy() then
      Anchor(cls, p.href,
        if ext then Some(NewTab) else None,
        if ext then Some(NoOpener) else None,
        p.download,
        if Present(p.ariaLabel) then p.ariaLabel
        else if ext then Some(p.children + NewTabNote) else None,
        p.children,
        if ext && p.Variant() != Cta then Some(st.externalIcon) else None)
    else if StartsWith(p.href, "#") then
      Anchor(cls, p.href, None, None, NoDownload, p.ariaLabel, p.children, None)
    else
      RouterLink(cls, p.href, p.ariaLabel, p.children)
  }

  /** Leaving out `variant` is the same as passing `inline`. */
  lemma VariantDefault(p: LinkProps, st: Styles)
    ensures Link(p.(variant := None), st) == Link(p.(variant := Some(Inline)), st)
  {
    assert ClassEntries(p.(variant := None), st) == ClassEntries(p.(variant := Some(Inline)), st);
  }

  /** Leaving out `blockLayout` is the same as passing `false`. */
  lemma BlockLayoutDefault(p: LinkProps, st: Styles)
    ensures Link(p.(blockLayout := None), st) == Link(p.(blockLayout := Some(false)), st)
  {
    assert ClassEntries(p.(blockLayout := None), st) == ClassEntries(p.(blockLayout := Some(false)), st);
  }

  /** Leaving out `external` is the same as passing `false`. */
  lemma ExternalDefault(p: LinkProps, st: Styles)
    ensures Link(p.(external := None), st) == Link(p.(external := Some(false)), st)
  {
    assert ClassEntries(p.(external := None), st) == ClassEntries(p.(external := Some(false)), st);
  }

  /** A link opens a new tab, with `noopener noreferrer`, exactly when it is
      external, whatever the other props are. */
  lemma NewTabIffExternal(p: LinkProps, st: Styles)
    ensures var e := Link(p, st);
      (e.Anchor? && e.target == Some(NewTab)) <==> p.External()
    ensures var e := Link(p, st);
      (e.Anchor? && e.rel == Some(NoOpener)) <==> p.External()
  {
  }

  /** An external link always carries a non-empty accessible label. */
  lemma ExternalIsLabelled(p: LinkProps, st: Styles)
    requires p.External()
    ensures var e := Link(p, st); e.Anchor? && Present(e.ariaLabel)
  {
  }

  /** The router is used exactly for the links that are neither external,
      nor downloads, nor in-page. */
  lemma RouterIff(p: LinkProps, st: Styles)
    ensures Link(p, st).RouterLink? <==>
      !p.External() && !p.download.Truthy() && !StartsWith(p.href, "#")
  {
  }

  /** Read back at its spaces, the class attribute lists the non-empty
      classes in order when none of them holds a space. */
  lemma ClassNameSplits(p: LinkProps, st: Styles)
    requires ClassEntries(p, st) != []
    requires forall k :: 0 <= k < |ClassEntries(p, st)| ==> ' ' !in ClassEntries(p, st)[k]
    ensures Split(ClassName(p, st), ' ') == ClassEntries(p, st)
  {
    SplitJoin(ClassEntries(p, st), ' ');
  }

  /** The block-layout class is listed exactly when `blockLayout` is set,
      given a module whose classes are non-empty and distinct from it and a
      caller class that is not it. */
  lemma BlockLayoutClass(p: LinkProps, st: Styles)
    requires st.navBlock != [] && st.link != st.navBlock && st.OfVariant(p.Variant()) != st.navBlock
    requires p.className != Some(st.navBlock)
    ensures st.navBlock in ClassEntries(p, st) <==> p.BlockLayout()
  {
    var xs := [st.link, st.OfVariant(p.Variant()),
               if p.BlockLayout() then st.navBlock else "",
               if p.className.Some? then p.className.value else ""];
    assert p.BlockLayout() ==> st.navBlock in xs;
  }
}
