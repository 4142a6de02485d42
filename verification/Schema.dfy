/** The vocabulary of the access model: which fields and columns of the span table may be named. */
module Schema {
  import opened Basics

  /** A logical type as stored; Unset reads as TString. */
  datatype LogicalType = Unset | TString | TStringArray | TBoolean | TNumber | Unknown(text: string)

  /** A scalar column (map is empty) or a key inside a map column. */
  datatype Field = Field(map_: string, name: string, logical: LogicalType, filterable: bool, policy: bool) {
    function Type(): LogicalType {
      if logical.Unset? then TString else logical
    }

    predicate Scalar() { map_ == "" }

    function Key(): string {
      map_ + ['\0'] + name
    }

    predicate Valid() {
      && name != ""
      && !Type().Unknown?
      && !(policy && Type().TNumber?)
      && (if Scalar() then ValidIdent(name) else ValidIdent(map_))
    }
  }

  predicate IdentChar(c: char, first: bool) {
    'a' <= c <= 'z' || 'A' <= c <= 'Z' || c == '_' || ('0' <= c <= '9' && !first)
  }

  predicate ValidIdent(s: string) {
    && 0 < |s| <= 128
    && forall i :: 0 <= i < |s| ==> IdentChar(s[i], i == 0)
  }

  /** A table is database.table, both plain identifiers. */
  predicate ValidTable(s: string) {
    exists i :: 0 <= i < |s| && s[i] == '.' && ValidIdent(s[..i]) && ValidIdent(s[i + 1..])
  }

  datatype Binding = Binding(
    table: string, traceID: string, timestamp: string, spanID: string, parentSpanID: string, spanName: string)
  {
    predicate Valid() {
      && ValidTable(table)
      && ValidIdent(traceID) && ValidIdent(timestamp) && ValidIdent(spanID)
      && ValidIdent(parentSpanID) && ValidIdent(spanName)
    }
  }

  datatype Policy = Policy(title: string, description: string, expression: string)

  datatype Role = Role(name: string, policies: seq<Policy>)

  datatype Model = Model(
    binding: Binding, fields: seq<Field>, userAttrs: seq<string>, roles: seq<Role>, version: nat)

  /** The field that counts for a key: of the marked fields with that key, the last one. */
  predicate LastMarked(marked: Field -> bool, fields: seq<Field>, i: int, key: string) {
    && 0 <= i < |fields| && marked(fields[i]) && fields[i].Key() == key
    && forall j :: i < j < |fields| && marked(fields[j]) ==> fields[j].Key() != key
  }

  /** A key identifies its field as long as the map part of both is an identifier or empty: the separator
      cannot occur in it. The name part is unrestricted. */
  lemma KeyIdentifies(f: Field, g: Field)
    requires f.Scalar() || ValidIdent(f.map_)
    requires g.Scalar() || ValidIdent(g.map_)
    ensures f.Key() == g.Key() <==> f.map_ == g.map_ && f.name == g.name
  {
    if f.Key() == g.Key() {
      SeparatorIsFirst(f, |g.map_|);
      SeparatorIsFirst(g, |f.map_|);
      assert f.map_ == f.Key()[..|f.map_|] && g.map_ == g.Key()[..|g.map_|];
      assert f.name == f.Key()[|f.map_| + 1..] && g.name == g.Key()[|g.map_| + 1..];
    }
  }

  /** No separator comes before the one that ends the map part. */
  lemma SeparatorIsFirst(f: Field, i: nat)
    requires f.Scalar() || ValidIdent(f.map_)
    ensures i < |f.Key()| && f.Key()[i] == '\0' ==> |f.map_| <= i
  {
    if i < |f.map_| { assert f.Key()[i] == f.map_[i]; }
  }
}
