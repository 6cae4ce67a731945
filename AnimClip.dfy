// Animation clips as the two animation generators see them
// (Unity's `AnimationClip`, `EditorCurveBinding`, `AnimationCurve` and `Keyframe`).
//
// A clip is its name, its float curves and its object-reference curves. A key keeps only the
// parts the generators touch or copy.

module AnimClip {

  datatype Keyframe = Keyframe(time: real, value: real, inTangent: real, outTangent: real)

  /** The animated object's path below the animated root, the property and the component type. */
  datatype Binding = Binding(path: string, propertyName: string, typeName: string)

  datatype Curve = Curve(binding: Binding, keys: seq<Keyframe>)

  /** An object-reference curve; the referenced objects are identities. */
  datatype RefCurve = RefCurve(binding: Binding, keys: seq<int>)

  datatype Clip = Clip(name: string, curves: seq<Curve>, refCurves: seq<RefCurve>)
}
