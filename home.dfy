/** The landing page's typewriter heading and its blinking cursor. The timers
    that drive them are left to the caller: each call is one timeout or one
    interval. */
module Home {

  const HeroText: string := "Hi, I'm Mahi Nigam"

  class Typewriter {
    const text: string
    var currentText: string
    var currentIndex: int
    var showCursor: bool

    /** What has been typed is always the prefix of the text up to the index. */
    ghost predicate Valid()
      reads this
    {
      0 <= currentIndex <= |text| && currentText == text[..currentIndex]
    }

    constructor ()
      ensures Valid()
      ensures text == HeroText && currentText == "" && currentIndex == 0 && showCursor
    {
      text := HeroText;
      currentText := "";
      currentIndex := 0;
      showCursor := true;
    }

    /** The typing effect: while characters remain, one timeout appends the
        next one; once the whole text is typed no timeout is scheduled. */
    method TypeStep() returns (fired: bool)
      requires Valid()
      modifies this`currentText, this`currentIndex
      ensures Valid()
      ensures fired <==> old(currentIndex) < |text|
      ensures fired ==> currentText == old(currentText) + [text[old(currentIndex)]]
                        && currentIndex == old(currentIndex) + 1
      ensures !fired ==> currentText == old(currentText) == text && currentIndex == old(currentIndex)
    {
      fired := currentIndex < |text|;
      if fired {
        currentText := currentText + [text[currentIndex]];
        currentIndex := currentIndex + 1;
      }
    }

    /** The cursor interval: each call flips the cursor, so two restore it. */
    method Blink()
      modifies this`showCursor
      ensures showCursor == !old(showCursor)
    {
      showCursor := !showCursor;
    }
  }
}
