/**
  Conversion of an FBX surface material into a renderer material
  (`createMaterial`): each of five components takes its fixed default unless the
  SDK reports the corresponding property as valid, in which case the property's
  value replaces that component. The texture is the first file texture attached
  to the diffuse property, if any.
 */
module Materials {

  import opened Wrappers

  /** An RGBA colour. A colour built from three channels has alpha 1. */
  datatype ColorA = ColorA(r: real, g: real, b: real, a: real)

  type Double3 = (real, real, real)

  /** An SDK property lookup: either not valid, or valid with its value. */
  datatype Property<V> = Invalid | Valid(value: V)

  /** What the conversion reads from an SDK surface material. The texture files
      are the file names of the textures attached to the diffuse property. */
  datatype SurfaceMaterial = SurfaceMaterial(
    name: string,
    ambient: Property<Double3>,
    diffuse: Property<Double3>,
    emissive: Property<Double3>,
    specular: Property<Double3>,
    shininess: Property<real>,
    diffuseTextureFiles: seq<string>)

  /** The renderer's lighting material. */
  datatype GlMaterial = GlMaterial(ambient: ColorA, diffuse: ColorA, specular: ColorA, shininess: real, emissive: ColorA)

  /** The application's material: a lighting material and an optional texture,
      here the name of the image file it is loaded from. */
  datatype Material = Material(material: GlMaterial, texture: Option<string>)

  const Black := ColorA(0.0, 0.0, 0.0, 1.0)
  const White := ColorA(1.0, 1.0, 1.0, 1.0)
  const DefaultShininess: real := 80.0

  /** The colour made from three channels, with alpha 1. */
  function ToColor(c: Double3): ColorA
  {
    ColorA(c.0, c.1, c.2, 1.0)
  }

  function ColorOr(p: Property<Double3>, default: ColorA): ColorA
  {
    match p
    case Valid(c) => ToColor(c)
    case Invalid => default
  }

  function RealOr(p: Property<real>, default: real): real
  {
    match p
    case Valid(x) => x
    case Invalid => default
  }

  /** Only the first attached texture is used; further ones are ignored. */
  function FirstTexture(files: seq<string>): Option<string>
  {
    if |files| > 0 then Some(files[0]) else None
  }

  /** The material `createMaterial` builds from `m`. */
  function Converted(m: SurfaceMaterial): Material
  {
    Material(
      GlMaterial(
        ColorOr(m.ambient, Black),
        ColorOr(m.diffuse, White),
        ColorOr(m.specular, Black),
        RealOr(m.shininess, DefaultShininess),
        ColorOr(m.emissive, Black)),
      FirstTexture(m.diffuseTextureFiles))
  }

  /** Builds the material the way `createMaterial` does: start from the defaults
      and overwrite a component for each valid property. */
  method CreateMaterial(m: SurfaceMaterial) returns (mat: Material)
    ensures mat == Converted(m)
  {
    var ambient := Black;
    var diffuse := White;
    var emissive := Black;
    var specular := Black;
    var shininess := DefaultShininess;

    if m.ambient.Valid? {
      ambient := ToColor(m.ambient.value);
    }
    if m.diffuse.Valid? {
      diffuse := ToColor(m.diffuse.value);
    }
    if m.emissive.Valid? {
      emissive := ToColor(m.emissive.value);
    }
    if m.specular.Valid? {
      specular := ToColor(m.specular.value);
    }
    if m.shininess.Valid? {
      shininess := m.shininess.value;
    }

    var texture: Option<string> := None;
    if |m.diffuseTextureFiles| > 0 {
      texture := Some(m.diffuseTextureFiles[0]);
    }
    mat := Material(GlMaterial(ambient, diffuse, specular, shininess, emissive), texture);
  }

  /** A material with no valid property gets ambient (0,0,0), diffuse (1,1,1),
      emissive (0,0,0), specular (0,0,0) and shininess 80. */
  lemma DefaultsWhenAllInvalid(m: SurfaceMaterial)
    requires m.ambient == Invalid && m.diffuse == Invalid && m.emissive == Invalid
    requires m.specular == Invalid && m.shininess == Invalid
    ensures Converted(m).material == GlMaterial(
      ColorA(0.0, 0.0, 0.0, 1.0), ColorA(1.0, 1.0, 1.0, 1.0), ColorA(0.0, 0.0, 0.0, 1.0), 80.0, ColorA(0.0, 0.0, 0.0, 1.0))
  {
  }

  /** Making one property valid replaces exactly its own component and leaves
      every other component of the material as it was. */
  lemma ValidPropertyReplacesOnlyItsComponent(m: SurfaceMaterial, c: Double3, s: real)
    ensures Converted(m.(ambient := Valid(c))) == Converted(m).(material := Converted(m).material.(ambient := ToColor(c)))
    ensures Converted(m.(diffuse := Valid(c))) == Converted(m).(material := Converted(m).material.(diffuse := ToColor(c)))
    ensures Converted(m.(emissive := Valid(c))) == Converted(m).(material := Converted(m).material.(emissive := ToColor(c)))
    ensures Converted(m.(specular := Valid(c))) == Converted(m).(material := Converted(m).material.(specular := ToColor(c)))
    ensures Converted(m.(shininess := Valid(s))) == Converted(m).(material := Converted(m).material.(shininess := s))
  {
  }

  /** A material's texture is present exactly when some file texture is attached
      to its diffuse property, and it is then the first one. */
  lemma TextureIsFirstAttached(m: SurfaceMaterial)
    ensures Converted(m).texture.Some? <==> |m.diffuseTextureFiles| > 0
    ensures Converted(m).texture.Some? ==> Converted(m).texture.value == m.diffuseTextureFiles[0]
  {
  }
}
