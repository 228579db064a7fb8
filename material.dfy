/**
 * The part of a material (the `RTXMaterial` trait of src/material.rs) that the core
 * reads: whether it emits light and whether a mesh made of it is filed as a light.
 * Materials are compared by an identity number, as the source compares references.
 */
module Materials {
  datatype Material = Material(id: nat, emissive: bool, countsAsLight: bool)
}
