/** The zoomable thumbnail: a closed view, a zoomed view showing the primary
    label, and a revealed view showing the secondary label. */
module ImageZoomView {
  import opened Wrappers

  /** A label that renders: present and non-empty. */
  predicate Truthy(caption: Option<string>)
  {
    caption.Some? && caption.value != ""
  }

  class ImageZoom {
    const primaryLabel: Option<string>
    const secondaryLabel: Option<string>
    var zoomed: bool
    var revealed: bool

    /** Only a zoomed view can be revealed. */
    predicate Valid()
      reads this
    {
      revealed ==> zoomed
    }

    /** The component starts closed and unrevealed. */
    constructor (primaryLabel: Option<string>, secondaryLabel: Option<string>)
      ensures this.primaryLabel == primaryLabel && this.secondaryLabel == secondaryLabel
      ensures !zoomed && !revealed
      ensures Valid()
    {
      this.primaryLabel := primaryLabel;
      this.secondaryLabel := secondaryLabel;
      zoomed := false;
      revealed := false;
    }

    /** toggleZoom: open; then reveal when there is a secondary label to show;
        otherwise close. */
    method ToggleZoom()
      modifies this
      ensures !old(zoomed) ==> zoomed && !revealed
      ensures old(zoomed) && !old(revealed) && Truthy(secondaryLabel) ==> zoomed && revealed
      ensures old(zoomed) && (old(revealed) || !Truthy(secondaryLabel)) ==> !zoomed && !revealed
      ensures Valid()
    {
      if !zoomed {
        zoomed := true;
        revealed := false;
      } else if !revealed && Truthy(secondaryLabel) {
        revealed := true;
      } else {
        zoomed := false;
        revealed := false;
      }
    }

    /** The keydown listener, registered only while zoomed: Escape closes. */
    method PressKey(key: string)
      modifies this
      ensures old(zoomed) && key == "Escape" ==> !zoomed && !revealed
      ensures !(old(zoomed) && key == "Escape") ==> zoomed == old(zoomed) && revealed == old(revealed)
      ensures old(Valid()) ==> Valid()
    {
      if zoomed && key == "Escape" {
        zoomed := false;
        revealed := false;
      }
    }

    /** A click on the backdrop closes the view. */
    method ClickBackdrop()
      modifies this
      ensures !zoomed && !revealed
      ensures Valid()
    {
      zoomed := false;
      revealed := false;
    }

    /** A click on the thumbnail zooms and leaves `revealed` alone. */
    method ClickThumbnail()
      modifies this
      ensures zoomed && revealed == old(revealed)
      ensures Valid()
    {
      zoomed := true;
    }

    /** The label in the overlay: none while closed; the secondary label once
        revealed, if it renders; else the primary label, if it renders. */
    function ShownLabel(): (caption: Option<string>)
      reads this
      ensures !zoomed ==> caption.None?
      ensures caption.Some? ==> caption == primaryLabel || caption == secondaryLabel
      ensures zoomed && revealed && Truthy(secondaryLabel) ==> caption == secondaryLabel
      ensures zoomed && !(revealed && Truthy(secondaryLabel)) ==>
        caption == if Truthy(primaryLabel) then primaryLabel else None
    {
      if !zoomed then None
      else if revealed && Truthy(secondaryLabel) then secondaryLabel
      else if Truthy(primaryLabel) then primaryLabel
      else None
    }

    /** Without a secondary label a toggle closes an open view and opens a
        closed one, so two toggles come back to where they started and the
        view is never revealed. */
    method ToggleTwiceWithoutSecondary()
      requires !Truthy(secondaryLabel) && Valid()
      modifies this
      ensures zoomed == old(zoomed) && !revealed
    {
      ghost var start := zoomed;
      ToggleZoom();
      assert zoomed == !start && !revealed;
      ToggleZoom();
    }

    /** With a secondary label, three toggles from closed go zoomed, revealed,
        closed. */
    method ToggleThriceWithSecondary() returns (first: Option<string>, second: Option<string>)
      requires Truthy(secondaryLabel) && !zoomed
      modifies this
      ensures first == (if Truthy(primaryLabel) then primaryLabel else None)
      ensures second == secondaryLabel
      ensures !zoomed && !revealed
    {
      ToggleZoom();
      first := ShownLabel();
      ToggleZoom();
      second := ShownLabel();
      ToggleZoom();
    }
  }
}
