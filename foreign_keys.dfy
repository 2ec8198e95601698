/**
 * ForeignKeyDto (SqlServer/ForeignKeyDto.cs): a seven-field record whose
 * constructor rejects blank fields in a fixed order, whose equality
 * compares all seven fields, and whose hash code folds the fields' hashes
 * with 32-bit wrap-around.
 */
module ForeignKeys {
  import opened Wrappers
  import opened Text

  /** The properties of a constructed DTO, which never change afterwards. */
  datatype ForeignKeyDto = ForeignKeyDto(
    name: string,
    schema: string,
    tableName: string,
    columnName: string,
    referenceSchema: string,
    referenceTableName: string,
    referenceColumnName: string)

  /** `ArgumentNullException(nameof(p))`, thrown for null and for blank arguments alike. */
  datatype ArgumentNull = ArgumentNull(paramName: string)

  /** The constructor's parameter names, in the order they are checked. */
  const ParameterNames: seq<string> :=
    ["name", "schema", "tableName", "columnName", "referenceSchema", "referenceTableName", "referenceColumnName"]

  function Arguments(name: Option<string>, schema: Option<string>, tableName: Option<string>,
                     columnName: Option<string>, referenceSchema: Option<string>,
                     referenceTableName: Option<string>, referenceColumnName: Option<string>): seq<Option<string>>
  {
    [name, schema, tableName, columnName, referenceSchema, referenceTableName, referenceColumnName]
  }

  /** The constructor: each property is assigned its argument, or the first
      null or blank argument is reported by name. */
  function Create(name: Option<string>, schema: Option<string>, tableName: Option<string>,
                  columnName: Option<string>, referenceSchema: Option<string>,
                  referenceTableName: Option<string>, referenceColumnName: Option<string>)
    : (r: Result<ForeignKeyDto, ArgumentNull>)
    ensures var args := Arguments(name, schema, tableName, columnName, referenceSchema, referenceTableName, referenceColumnName);
      r.Success? <==> forall k :: 0 <= k < |args| ==> !IsNullOrWhiteSpace(args[k])
    ensures var args := Arguments(name, schema, tableName, columnName, referenceSchema, referenceTableName, referenceColumnName);
      forall k :: (0 <= k < |args| && IsNullOrWhiteSpace(args[k]) &&
                   forall j :: 0 <= j < k ==> !IsNullOrWhiteSpace(args[j])) ==>
        r == Failure(ArgumentNull(ParameterNames[k]))
    ensures r.Success? ==>
      && Some(r.value.name) == name
      && Some(r.value.schema) == schema
      && Some(r.value.tableName) == tableName
      && Some(r.value.columnName) == columnName
      && Some(r.value.referenceSchema) == referenceSchema
      && Some(r.value.referenceTableName) == referenceTableName
      && Some(r.value.referenceColumnName) == referenceColumnName
  {
    var args := Arguments(name, schema, tableName, columnName, referenceSchema, referenceTableName, referenceColumnName);
    assert args[0] == name && args[1] == schema && args[2] == tableName && args[3] == columnName;
    assert args[4] == referenceSchema && args[5] == referenceTableName && args[6] == referenceColumnName;
    if IsNullOrWhiteSpace(name) then Failure(ArgumentNull("name"))
    else if IsNullOrWhiteSpace(schema) then Failure(ArgumentNull("schema"))
    else if IsNullOrWhiteSpace(tableName) then Failure(ArgumentNull("tableName"))
    else if IsNullOrWhiteSpace(columnName) then Failure(ArgumentNull("columnName"))
    else if IsNullOrWhiteSpace(referenceSchema) then Failure(ArgumentNull("referenceSchema"))
    else if IsNullOrWhiteSpace(referenceTableName) then Failure(ArgumentNull("referenceTableName"))
    else if IsNullOrWhiteSpace(referenceColumnName) then Failure(ArgumentNull("referenceColumnName"))
    else Success(ForeignKeyDto(name.value, schema.value, tableName.value, columnName.value,
                               referenceSchema.value, referenceTableName.value, referenceColumnName.value))
  }

  // ---------------------------------------------------------------------
  // Equality

  /** `Equals(ForeignKeyDto other)`; a null `other` is `None`. */
  function EqualsDto(d: ForeignKeyDto, other: Option<ForeignKeyDto>): bool
  {
    other.Some? &&
    d.schema == other.value.schema &&
    d.name == other.value.name &&
    d.referenceSchema == other.value.referenceSchema &&
    d.referenceTableName == other.value.referenceTableName &&
    d.referenceColumnName == other.value.referenceColumnName &&
    d.tableName == other.value.tableName &&
    d.columnName == other.value.columnName
  }

  /** The argument of `Equals(object)`: null, a ForeignKeyDto, or an object of another type. */
  datatype Object = Null | Dto(dto: ForeignKeyDto) | OtherObject

  /** `obj as ForeignKeyDto`: null unless the object is a ForeignKeyDto. */
  function AsForeignKeyDto(obj: Object): Option<ForeignKeyDto>
  {
    match obj
    case Dto(d) => Some(d)
    case _ => None
  }

  /** `Equals(object obj)`, which delegates to the typed overload. */
  function EqualsObject(d: ForeignKeyDto, obj: Object): bool
  {
    EqualsDto(d, AsForeignKeyDto(obj))
  }

  /** Two DTOs are Equal exactly when all seven properties agree. */
  lemma EqualsIsFieldEquality(a: ForeignKeyDto, b: ForeignKeyDto)
    ensures EqualsDto(a, Some(b)) <==> a == b
  {
  }

  lemma EqualsDtoNull(d: ForeignKeyDto)
    ensures !EqualsDto(d, None)
  {
  }

  /** Equals(object) is false for null and for other types, and otherwise
      agrees with Equals(ForeignKeyDto). */
  lemma EqualsObjectAgrees(d: ForeignKeyDto, obj: Object)
    ensures obj.Null? ==> !EqualsObject(d, obj)
    ensures obj.OtherObject? ==> !EqualsObject(d, obj)
    ensures obj.Dto? ==> (EqualsObject(d, obj) <==> EqualsDto(d, Some(obj.dto)))
  {
  }

  lemma EqualsReflexive(a: ForeignKeyDto)
    ensures EqualsDto(a, Some(a))
  {
  }

  lemma EqualsSymmetric(a: ForeignKeyDto, b: ForeignKeyDto)
    ensures EqualsDto(a, Some(b)) <==> EqualsDto(b, Some(a))
  {
  }

  lemma EqualsTransitive(a: ForeignKeyDto, b: ForeignKeyDto, c: ForeignKeyDto)
    requires EqualsDto(a, Some(b)) && EqualsDto(b, Some(c))
    ensures EqualsDto(a, Some(c))
  {
  }

  // ---------------------------------------------------------------------
  // GetHashCode

  newtype int32 = x: int | -0x8000_0000 <= x < 0x8000_0000

  const HashSeed: int32 := 671857233
  const HashMultiplier: int32 := -1521134295
  const TwoTo32: int := 0x1_0000_0000

  /** Two's-complement wrap-around of an unchecked C# `int` operation. */
  function Wrap(x: int): int32
  {
    var m := (x + 0x8000_0000) % TwoTo32;
    (m - 0x8000_0000) as int32
  }

  /** One step `hashCode * -1521134295 + fieldHash`: the product wraps, then the sum wraps. */
  function Combine(hashCode: int32, fieldHash: int32): int32
  {
    Wrap(Wrap(hashCode as int * HashMultiplier as int) as int + fieldHash as int)
  }

  /** Folds `Combine` over the hashes, left to right. */
  function Fold(acc: int32, hashes: seq<int32>): int32
    decreases |hashes|
  {
    if hashes == [] then acc else Fold(Combine(acc, hashes[0]), hashes[1..])
  }

  /** The field hashes in the order GetHashCode folds them. */
  function FieldHashes(d: ForeignKeyDto, stringHash: string -> int32): seq<int32>
  {
    [stringHash(d.schema), stringHash(d.name), stringHash(d.referenceSchema), stringHash(d.referenceTableName),
     stringHash(d.referenceColumnName), stringHash(d.tableName), stringHash(d.columnName)]
  }

  /** The hash code; `stringHash` stands for `EqualityComparer<string>.Default.GetHashCode`,
      which .NET seeds randomly per process. */
  function HashCode(d: ForeignKeyDto, stringHash: string -> int32): int32
  {
    Fold(HashSeed, FieldHashes(d, stringHash))
  }

  /** GetHashCode, step by step on the local `hashCode`. */
  method GetHashCode(d: ForeignKeyDto, stringHash: string -> int32) returns (hashCode: int32)
    ensures hashCode == HashCode(d, stringHash)
  {
    ghost var hs := FieldHashes(d, stringHash);
    hashCode := HashSeed;
    assert hashCode == FoldSteps(HashSeed, hs, 0);
    hashCode := Combine(hashCode, stringHash(d.schema));
    assert hashCode == FoldSteps(HashSeed, hs, 1);
    hashCode := Combine(hashCode, stringHash(d.name));
    assert hashCode == FoldSteps(HashSeed, hs, 2);
    hashCode := Combine(hashCode, stringHash(d.referenceSchema));
    assert hashCode == FoldSteps(HashSeed, hs, 3);
    hashCode := Combine(hashCode, stringHash(d.referenceTableName));
    assert hashCode == FoldSteps(HashSeed, hs, 4);
    hashCode := Combine(hashCode, stringHash(d.referenceColumnName));
    assert hashCode == FoldSteps(HashSeed, hs, 5);
    hashCode := Combine(hashCode, stringHash(d.tableName));
    assert hashCode == FoldSteps(HashSeed, hs, 6);
    hashCode := Combine(hashCode, stringHash(d.columnName));
    assert hashCode == FoldSteps(HashSeed, hs, 7);
    FoldPrefix(HashSeed, hs, 7);
    assert hs[7..] == [];
  }

  /** Folding the first `n` hashes step by step. */
  function FoldSteps(acc: int32, hashes: seq<int32>, n: nat): int32
    requires n <= |hashes|
  {
    if n == 0 then acc else Combine(FoldSteps(acc, hashes, n - 1), hashes[n - 1])
  }

  lemma {:induction false} FoldPrefix(acc: int32, hashes: seq<int32>, n: nat)
    requires n <= |hashes|
    ensures Fold(acc, hashes) == Fold(FoldSteps(acc, hashes, n), hashes[n..])
  {
    if n > 0 {
      FoldPrefix(acc, hashes, n - 1);
      var a := FoldSteps(acc, hashes, n - 1);
      assert hashes[n - 1..][1..] == hashes[n..];
    }
  }

  /** The exact integer value of the fold, without wrap-around (Horner's rule). */
  function Polynomial(acc: int, hashes: seq<int32>): int
    decreases |hashes|
  {
    if hashes == [] then acc else Polynomial(acc * HashMultiplier as int + hashes[0] as int, hashes[1..])
  }

  /** Wrapping after every step gives the same result as computing the
      polynomial in unbounded integers and wrapping once. */
  lemma {:induction false} FoldIsWrappedPolynomial(acc: int32, exact: int, hashes: seq<int32>)
    requires (acc as int - exact) % TwoTo32 == 0
    ensures Fold(acc, hashes) == Wrap(Polynomial(exact, hashes))
    decreases |hashes|
  {
    if hashes == [] {
      WrapCongruent(acc as int, exact);
      WrapIdentity(acc);
    } else {
      var next := Combine(acc, hashes[0]);
      var nextExact := exact * HashMultiplier as int + hashes[0] as int;
      var p := Wrap(acc as int * HashMultiplier as int);
      WrapIsCongruent(acc as int * HashMultiplier as int);
      WrapIsCongruent(p as int + hashes[0] as int);
      MultiplyCongruent(acc as int, exact, HashMultiplier as int);
      assert (next as int - nextExact) % TwoTo32 == 0 by {
        CongruentTransitive(next as int, p as int + hashes[0] as int, acc as int * HashMultiplier as int + hashes[0] as int, nextExact);
      }
      FoldIsWrappedPolynomial(next, nextExact, hashes[1..]);
    }
  }

  /** The hash code is the unchecked polynomial in the seven field hashes,
      seeded with 671857233 and multiplied by -1521134295 at each step,
      reduced once to a 32-bit two's-complement value. */
  lemma HashCodeIsWrappedPolynomial(d: ForeignKeyDto, stringHash: string -> int32)
    ensures HashCode(d, stringHash) == Wrap(Polynomial(HashSeed as int, FieldHashes(d, stringHash)))
  {
    FoldIsWrappedPolynomial(HashSeed, HashSeed as int, FieldHashes(d, stringHash));
  }

  /** Congruence chain used by the fold proof. */
  lemma CongruentTransitive(a: int, b: int, c: int, d: int)
    requires (a - b) % TwoTo32 == 0 && (b - c) % TwoTo32 == 0 && (c - d) % TwoTo32 == 0
    ensures (a - d) % TwoTo32 == 0
  {
    var i, j, k := (a - b) / TwoTo32, (b - c) / TwoTo32, (c - d) / TwoTo32;
    assert a - d == (i + j + k) * TwoTo32;
  }

  lemma MultiplyCongruent(x: int, y: int, m: int)
    requires (x - y) % TwoTo32 == 0
    ensures (x * m - y * m) % TwoTo32 == 0
  {
    var q := (x - y) / TwoTo32;
    assert x - y == q * TwoTo32;
    assert x * m - y * m == (q * m) * TwoTo32;
  }

  /** The wrapped value is congruent to the exact one modulo 2^32. */
  lemma WrapIsCongruent(x: int)
    ensures (Wrap(x) as int - x) % TwoTo32 == 0
  {
  }

  lemma WrapCongruent(x: int, y: int)
    requires (x - y) % TwoTo32 == 0
    ensures Wrap(x) == Wrap(y)
  {
    var q := (x - y) / TwoTo32;
    assert x + 0x8000_0000 == (y + 0x8000_0000) + q * TwoTo32;
  }

  lemma WrapIdentity(x: int32)
    ensures Wrap(x as int) == x
  {
  }

  /** Equal DTOs have equal hash codes, whatever the string hash. */
  lemma EqualImpliesEqualHash(a: ForeignKeyDto, obj: Object, stringHash: string -> int32)
    requires EqualsObject(a, obj)
    ensures HashCode(a, stringHash) == HashCode(obj.dto, stringHash)
  {
  }
}
