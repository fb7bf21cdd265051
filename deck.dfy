/** A presentation being written: the slide size and, per slide, the text
    boxes and pictures added to it, in the order they were added. */
module Deck {

  /** Left, top, width and height in EMU. */
  datatype EmuRect = EmuRect(left: int, top: int, width: int, height: int)

  /** A shape added to an output slide. A picture is named by its file name
      inside the image directory the rebuild reads from. */
  datatype DeckShape = TextBox(rect: EmuRect, text: string) | Picture(file: string, rect: EmuRect)

  class Presentation {
    var slideWidth: int
    var slideHeight: int
    var slides: seq<seq<DeckShape>>

    /** `Presentation()`: a new deck on the default template, of the default
        10 x 7.5 inch size, holding whatever slides the template carries. */
    constructor (templateSlides: seq<seq<DeckShape>>)
      ensures slideWidth == 9144000 && slideHeight == 6858000
      ensures slides == templateSlides
    {
      slideWidth := 9144000;
      slideHeight := 6858000;
      slides := templateSlides;
    }

    /** Assigning `slide_width` and `slide_height`. */
    method SetSlideSize(width: int, height: int)
      modifies this
      ensures slideWidth == width && slideHeight == height
      ensures slides == old(slides)
    {
      slideWidth, slideHeight := width, height;
    }

    /** Dropping the relationship of the first slide and deleting its id. */
    method DropFirstSlide()
      requires |slides| > 0
      modifies this
      ensures slides == old(slides)[1..]
      ensures slideWidth == old(slideWidth) && slideHeight == old(slideHeight)
    {
      slides := slides[1..];
    }

    /** `slides.add_slide(blank_layout)`: a slide with no shapes at the end. */
    method AddBlankSlide()
      modifies this
      ensures slides == old(slides) + [[]]
      ensures slideWidth == old(slideWidth) && slideHeight == old(slideHeight)
    {
      slides := slides + [[]];
    }

    /** `add_textbox`/`add_picture` on slide `index`: the shape goes last. */
    method AddShape(index: nat, shape: DeckShape)
      requires index < |slides|
      modifies this
      ensures slides == old(slides)[index := old(slides)[index] + [shape]]
      ensures slideWidth == old(slideWidth) && slideHeight == old(slideHeight)
    {
      slides := slides[index := slides[index] + [shape]];
    }
  }
}
