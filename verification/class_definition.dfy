/** Trait records (FastAmf3/ClassDefinition.cs): the shape of a decoded
    record. Both classes of the source are immutable once constructed, so
    they are datatypes here; their getters are the datatype's fields. */
module ClassDefinitions {
  import opened Wrappers
  import opened Amf3Type

  /** The `BindingFlags.Default` and `MemberTypes.Custom` values the decoder
      stamps on every member it reads. */
  const BindingDefault: int := 0
  const MemberCustom: int := 64

  /** One declared member of a trait: its name and two opaque reflection flags. */
  datatype ClassMember = ClassMember(name: Str, bindingFlags: int, memberType: int)

  /** The members array shared by traits that declare none. */
  const EmptyClassMembers: seq<ClassMember> := []

  /** A trait: optional class name (a .NET string may be null), optional
      member array, and the two encoding flags. */
  datatype ClassDefinition = ClassDefinition(
    className: Option<Str>,
    members: Option<seq<ClassMember>>,
    isExternalizable: bool,
    isDynamic: bool)
  {
    /** The number of declared members; a missing member array counts as none. */
    function MemberCount(): (n: nat)
      ensures members.None? ==> n == 0
      ensures members.Some? ==> n == |members.value|
      ensures n > 0 ==> members.Some?
    {
      if members.None? then 0 else |members.value|
    }

    /** A trait is typed (not anonymous) exactly when it has a non-empty class name. */
    predicate IsTypedObject()
    {
      className.Some? && className.value != []
    }

    /** The member name at a position below `MemberCount()`. */
    function MemberName(i: nat): (name: Str)
      requires i < MemberCount()
      ensures members.Some? && i < |members.value| && name == members.value[i].name
    {
      members.value[i].name
    }
  }

  /** A trait as the decoder builds it: from the name it read and the member names, in order. */
  function DecodedTrait(name: Str, memberNames: seq<Str>, externalizable: bool, dynamic: bool): (t: ClassDefinition)
    ensures t.MemberCount() == |memberNames|
    ensures forall i :: 0 <= i < |memberNames| ==> t.MemberName(i) == memberNames[i]
    ensures t.IsTypedObject() <==> name != []
    ensures t.isExternalizable == externalizable && t.isDynamic == dynamic
  {
    ClassDefinition(Some(name),
      Some(seq(|memberNames|, i requires 0 <= i < |memberNames| => ClassMember(memberNames[i], BindingDefault, MemberCustom))),
      externalizable, dynamic)
  }

  lemma EmptyMembersCountZero(name: Option<Str>, ext: bool, dyn: bool)
    ensures |EmptyClassMembers| == 0
    ensures ClassDefinition(name, Some(EmptyClassMembers), ext, dyn).MemberCount() == 0
    ensures ClassDefinition(name, None, ext, dyn).MemberCount() == 0
  {
  }
}
