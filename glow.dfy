/**
 * `getMaterialWithGlow`: the material of a button, made to glow pink when the
 * button is the current selection. Only the lookup fallback and the emissive
 * choice are modelled; a material is reduced to the fields that matter.
 */
module Glow {
  import opened Wrappers

  datatype Material = Material(name: string, color: string, emissive: string, emissiveIntensity: real)

  const ActiveEmissive: string := "#fae"
  const InactiveEmissive: string := "black"
  const ActiveIntensity: real := 0.25

  /**
   * A missing material is passed through unchanged (absent); a present one
   * is copied with the selection's glow (pink at 0.25) or with none (black at
   * 0), everything else kept.
   */
  function MaterialWithGlow(materials: map<string, Material>, selected: string, button: string, materialName: string)
    : (r: Option<Material>)
    ensures r.None? <==> materialName !in materials
    ensures r.Some? ==> r.value.name == materials[materialName].name && r.value.color == materials[materialName].color
    ensures r.Some? && selected == button ==> r.value.emissive == ActiveEmissive && r.value.emissiveIntensity == ActiveIntensity
    ensures r.Some? && selected != button ==> r.value.emissive == InactiveEmissive && r.value.emissiveIntensity == 0.0
  {
    var isActive := selected == button;
    if materialName in materials then
      var m := materials[materialName];
      Some(m.(emissive := if isActive then ActiveEmissive else InactiveEmissive,
              emissiveIntensity := if isActive then ActiveIntensity else 0.0))
    else None
  }

  /** At any moment the materials of at most one button glow: those of the selection. */
  lemma OnlySelectionGlows(materials: map<string, Material>, selected: string, b1: string, n1: string, b2: string, n2: string)
    requires MaterialWithGlow(materials, selected, b1, n1).Some?
    requires MaterialWithGlow(materials, selected, b2, n2).Some?
    requires MaterialWithGlow(materials, selected, b1, n1).value.emissiveIntensity > 0.0
    requires MaterialWithGlow(materials, selected, b2, n2).value.emissiveIntensity > 0.0
    ensures b1 == b2 == selected
  {
  }
}
