/** The about page: a three-way tab selector whose active tab decides the
    one panel shown, the alternating timeline layout, and the page's reveal
    map. */
module AboutPage {
  import opened Exclusive
  import Reveal

  /** `'story' | 'team' | 'timeline'` */
  datatype Tab = Story | Team | Timeline

  /** The tab buttons, in the order they are drawn. */
  const TabOrder: seq<Tab> := [Story, Team, Timeline]

  function TabLabel(tab: Tab): string {
    match tab
    case Story => "Our Story"
    case Team => "Meet the Team"
    case Timeline => "Timeline"
  }

  /** Every tab has its own button, and the buttons carry distinct labels. */
  lemma TabButtonsCoverTabs()
    ensures forall t: Tab :: t in TabOrder
    ensures forall i, j | 0 <= i < j < |TabOrder| :: TabLabel(TabOrder[i]) != TabLabel(TabOrder[j])
  {
    forall t: Tab ensures t in TabOrder {
      assert TabOrder[TabIndex(t)] == t;
    }
  }

  /** Which tab buttons are styled active: `activeTab === tab`. */
  function ButtonsActive(active: Tab): (flags: seq<bool>)
    ensures |flags| == |TabOrder|
  {
    seq(|TabOrder|, i requires 0 <= i < |TabOrder| => TabOrder[i] == active)
  }

  /** Which panels are rendered: the story, team and timeline sections,
      each guarded by its own `activeTab === ...` test. */
  function PanelsRendered(active: Tab): seq<bool> {
    [active == Story, active == Team, active == Timeline]
  }

  /** The position of a tab's button, which is also the position of its
      panel. */
  function TabIndex(tab: Tab): (i: nat)
    ensures i < |TabOrder| && TabOrder[i] == tab
  {
    match tab
    case Story => 0
    case Team => 1
    case Timeline => 2
  }

  /** Exactly one button is styled active, the active tab's, and exactly
      one panel is rendered, the one in the same position. */
  lemma ExactlyOneTabShown(active: Tab)
    ensures CountTrue(ButtonsActive(active)) == 1 && ButtonsActive(active)[TabIndex(active)]
    ensures CountTrue(PanelsRendered(active)) == 1 && PanelsRendered(active)[TabIndex(active)]
    ensures ButtonsActive(active) == PanelsRendered(active)
  {
    OneHotCount(ButtonsActive(active), TabIndex(active));
    OneHotCount(PanelsRendered(active), TabIndex(active));
  }

  datatype Direction = Row | RowReverse
  datatype Align = TextRight | TextLeft

  /** Timeline item `index`: even items are laid out `flex-row` with their
      card `text-right`, odd items `flex-row-reverse` with `text-left`. */
  function TimelineLayout(index: nat): (layout: (Direction, Align))
    ensures layout.0 == Row <==> index % 2 == 0
    ensures layout.1 == TextRight <==> layout.0 == Row
  {
    (if index % 2 == 0 then Row else RowReverse,
     if index % 2 == 0 then TextRight else TextLeft)
  }

  /** Consecutive items alternate sides; items two apart match. */
  lemma TimelineAlternates(index: nat)
    ensures TimelineLayout(index + 1) != TimelineLayout(index)
    ensures TimelineLayout(index + 2) == TimelineLayout(index)
  {
  }

  class About {
    var activeTab: Tab
    const sections: Reveal.RevealMap

    constructor()
      ensures activeTab == Story
      ensures fresh(sections) && sections.Valid() && sections.shown == map[]
    {
      activeTab := Story;
      sections := new Reveal.RevealMap();
    }

    /** A tab button was clicked: `setActiveTab(tab)`. */
    method SelectTab(tab: Tab)
      modifies this
      ensures activeTab == tab
    {
      activeTab := tab;
    }
  }

  /** A freshly opened page shows only the story panel; after a click on
      `tab` it shows only that tab's panel. */
  method OpenThenClick(tab: Tab) returns (before: seq<bool>, after: seq<bool>)
    ensures before == [true, false, false]
    ensures after == ButtonsActive(tab)
    ensures |after| == |TabOrder| && CountTrue(after) == 1 && after[TabIndex(tab)]
  {
    var page := new About();
    before := PanelsRendered(page.activeTab);
    page.SelectTab(tab);
    after := PanelsRendered(page.activeTab);
    ExactlyOneTabShown(page.activeTab);
  }
}
