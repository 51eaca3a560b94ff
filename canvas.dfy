/** A reportlab drawing canvas, reduced to the record of the calls made on
    it: which font was selected, which text was drawn where, and where a
    page was finished. Glyph rendering and the PDF bytes are not modelled. */
module PdfCanvas {

  datatype Event =
    | SetFont(name: string, size: nat)
    | DrawString(x: real, y: real, text: string)
    | ShowPage

  class Canvas {
    /** Every call made on the canvas so far, oldest first. */
    var log: seq<Event>

    constructor ()
      ensures log == []
    {
      log := [];
    }

    method SetFont(name: string, size: nat)
      modifies this
      ensures log == old(log) + [Event.SetFont(name, size)]
    {
      log := log + [Event.SetFont(name, size)];
    }

    method DrawString(x: real, y: real, text: string)
      modifies this
      ensures log == old(log) + [Event.DrawString(x, y, text)]
    {
      log := log + [Event.DrawString(x, y, text)];
    }

    /** Finishes the current page; drawing continues on a fresh one. */
    method ShowPage()
      modifies this
      ensures log == old(log) + [Event.ShowPage]
    {
      log := log + [Event.ShowPage];
    }
  }
}
