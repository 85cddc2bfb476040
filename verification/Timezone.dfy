/** Times in milliseconds, and the text form of a time, which has whole seconds only. */
module Timezone {

  /** What formatting a time and reading the text back leaves of it. */
  function WholeSeconds(time: int): int {
    time / 1000 * 1000
  }

  /** The last whole second. */
  lemma LessThanASecond(time: int)
    ensures time - 1000 < WholeSeconds(time) <= time && WholeSeconds(time) % 1000 == 0
  {
  }
}
