/** The numeric constants of constants.h that the engine uses. */
module Constants {

  /** `_Delta_T_`: the factor applied to both increments of one integration step. */
  const DeltaT: real := 0.5

  /** `firing()` compares the potential against the macro `_Connectivity_`, which is 30. */
  const Threshold: real := 30.0
}
