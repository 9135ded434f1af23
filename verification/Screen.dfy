/** The camera image as every scan of it sees it: 120 rows of 160 columns, scanned from row 118 up. */
module Screen {

  const HEIGHT: nat := 120
  const WIDTH: nat := 160
  const START: nat := 118

  // The nearest column of the image.
  function Limit(x: int): int {
    if x < 0 then 0 else if x > 159 then 159 else x
  }
}
