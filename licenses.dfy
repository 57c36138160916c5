/**
 * The license-header lookup used by the repository's code generators: a
 * fixed table of two header texts keyed by license name.
 */
module Licenses {
  import opened Wrappers

  /** Header for sources under the Elastic License. */
  const Elastic: string :=
    "\n"
    + "// Copyright Elasticsearch B.V. and/or licensed to Elasticsearch B.V. under one\n"
    + "// or more contributor license agreements. Licensed under the Elastic License;\n"
    + "// you may not use this file except in compliance with the Elastic License.\n"

  /** Header for sources under the Elastic License 2.0. */
  const Elasticv2: string :=
    "\n"
    + "// Copyright Elasticsearch B.V. and/or licensed to Elasticsearch B.V. under one\n"
    + "// or more contributor license agreements. Licensed under the Elastic License 2.0;\n"
    + "// you may not use this file except in compliance with the Elastic License 2.0.\n"

  /** The pair a lookup returns: the header text and, for an unknown name, an error message. */
  datatype Lookup = Lookup(text: string, err: Option<string>)

  /** The names the table knows. */
  predicate Known(name: string) {
    name == "Elastic" || name == "Elasticv2"
  }

  /** Looks up the header text of a license by name. */
  function Find(name: string): (r: Lookup)
    ensures r.err.None? <==> Known(name)
    ensures r.err.Some? ==> r.text == "" && r.err.value == "unknown license: " + name
    ensures name == "Elastic" ==> r.text == Elastic
    ensures name == "Elasticv2" ==> r.text == Elasticv2
  {
    match name
    case "Elastic" => Lookup(Elastic, None)
    case "Elasticv2" => Lookup(Elasticv2, None)
    case _ => Lookup("", Some("unknown license: " + name))
  }

  /** The two license texts are different, at the words "Elastic License 2.0". */
  lemma {:induction false} TextsDiffer()
    ensures Elastic != Elasticv2
  {
    var k := |"\n// Copyright Elasticsearch B.V. and/or licensed to Elasticsearch B.V. under one\n"
              + "// or more contributor license agreements. Licensed under the Elastic License"|;
    assert Elastic[k] == ';';
    assert Elasticv2[k] == ' ';
  }

  /** Distinct accepted names give distinct texts, so a header identifies its license. */
  lemma FindInjective(a: string, b: string)
    requires Find(a).err.None? && Find(b).err.None?
    ensures Find(a).text == Find(b).text <==> a == b
  {
    TextsDiffer();
  }

  /** The unknown-name error message names the license it was asked for, so it is injective too. */
  lemma {:induction false} UnknownMessageNamesLicense(a: string, b: string)
    requires !Known(a) && !Known(b)
    ensures Find(a).err == Find(b).err <==> a == b
  {
    var p := "unknown license: ";
    if Find(a).err == Find(b).err {
      assert (p + a)[|p|..] == a;
      assert (p + b)[|p|..] == b;
    }
  }
}
