/**
 * The serial-port combobox of the IoBox service GUI: its list of port names
 * and the text currently shown as the selection, and the rule that refreshes
 * both from a newly enumerated port list.
 */
module Ports {

  /** What the combobox holds: its value list and its current text. */
  datatype PortView = PortView(values: seq<string>, selection: string)

  /**
   * The refresh rule: an unchanged port list leaves everything alone; a
   * changed one replaces the values and keeps the selection if it is still
   * listed, else selects the first port. A changed, empty list leaves the
   * previous text in place, since nothing clears it.
   */
  function Refreshed(view: PortView, ports: seq<string>): (next: PortView)
    ensures next.values == ports
  {
    if ports == view.values then view
    else if view.selection in ports then PortView(ports, view.selection)
    else if ports != [] then PortView(ports, ports[0])
    else PortView(ports, view.selection)
  }

  /** The selection names one of the listed ports whenever any is listed. */
  predicate SelectionListed(view: PortView) {
    view.values != [] ==> view.selection in view.values
  }

  /** The view right after start-up: the enumerated ports, the first one selected. */
  function Initial(ports: seq<string>): (view: PortView)
    ensures view.values == ports && SelectionListed(view)
    ensures ports != [] ==> view.selection == ports[0]
    ensures ports == [] ==> view.selection == ""
  {
    PortView(ports, if ports != [] then ports[0] else "")
  }

  lemma UnchangedPortsKeepView(view: PortView, ports: seq<string>)
    requires ports == view.values
    ensures Refreshed(view, ports) == view
  {
  }

  lemma ChangedPortsKeepListedSelection(view: PortView, ports: seq<string>)
    requires ports != view.values && view.selection in ports
    ensures Refreshed(view, ports) == PortView(ports, view.selection)
  {
  }

  lemma ChangedPortsSelectFirst(view: PortView, ports: seq<string>)
    requires ports != view.values && view.selection !in ports && ports != []
    ensures Refreshed(view, ports) == PortView(ports, ports[0])
  {
  }

  /** A changed list with no ports empties the values but keeps the stale text. */
  lemma ChangedToNoPortsKeepsText(view: PortView)
    requires view.values != []
    ensures Refreshed(view, []) == PortView([], view.selection)
  {
  }

  /** Refreshing with the same list a second time changes nothing. */
  lemma RefreshIdempotent(view: PortView, ports: seq<string>)
    ensures Refreshed(Refreshed(view, ports), ports) == Refreshed(view, ports)
  {
  }

  /** A changed, non-empty list always leaves a listed port selected. */
  lemma ChangedPortsSelectListed(view: PortView, ports: seq<string>)
    requires ports != view.values && ports != []
    ensures Refreshed(view, ports).selection in ports
  {
  }

  /** Refreshing preserves the invariant that the selection is a listed port. */
  lemma RefreshKeepsSelectionListed(view: PortView, ports: seq<string>)
    requires SelectionListed(view)
    ensures SelectionListed(Refreshed(view, ports))
  {
  }

  /** The combobox whose values and text `refresh_ports` overwrites in place. */
  class PortCombo {
    var values: seq<string>
    var selection: string

    function View(): PortView
      reads this
    {
      PortView(values, selection)
    }

    /** Filling the combobox with the enumerated ports and selecting the first. */
    constructor (ports: seq<string>)
      ensures View() == Initial(ports)
    {
      values := ports;
      selection := "";
      if ports != [] {
        selection := ports[0];
      }
    }

    /** One refresh with the newly enumerated `ports`. */
    method RefreshPorts(ports: seq<string>)
      modifies this
      ensures View() == Refreshed(old(View()), ports)
      ensures old(SelectionListed(View())) ==> SelectionListed(View())
    {
      var currentSelection := selection;
      if ports != values {
        values := ports;
        if currentSelection in ports {
          selection := currentSelection;
        } else if ports != [] {
          selection := ports[0];
        }
      }
      if old(SelectionListed(View())) {
        RefreshKeepsSelectionListed(old(View()), ports);
      }
    }
  }
}
