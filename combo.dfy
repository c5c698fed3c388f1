/**
 * The counter of the `ComboBlock` of script2.js. Its position, text, font,
 * opacity and drawing are presentation and are not modelled.
 */
module Combo {
  class ComboBlock {
    var currentCombo: int

    /** `constructor(x, y)`: the count starts at 0. */
    constructor()
      ensures currentCombo == 0
    {
      currentCombo := 0;
    }

    /** `increaseCombo(variable)`: add `variable` to the count. */
    method IncreaseCombo(variable: int)
      modifies this
      ensures currentCombo == old(currentCombo) + variable
    {
      currentCombo := currentCombo + variable;
    }

    /** `restCombo()`: the count goes back to 0. */
    method RestCombo()
      modifies this
      ensures currentCombo == 0
    {
      currentCombo := 0;
    }
  }
}
