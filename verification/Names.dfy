/** Virtual names, the host name translation, and the entries of the name cache. */
module Names {
  import opened Strings

  datatype NamespacedName = NamespacedName(namespace: string, name: string)

  const NO_NAME := NamespacedName("", "")

  datatype GVK = GVK(group: string, version: string, kind: string)

  const INDEX_NAME := "indexphysicaltovirtualname"
  const INDEX_NAME_PATH := "indexphysicaltovirtualnamepath"
  const METADATA_FIELD_PATH := "metadata.name"

  lemma {:induction false} IndicesDiffer()
    ensures INDEX_NAME != INDEX_NAME_PATH
  {
    assert |INDEX_NAME| != |INDEX_NAME_PATH|;
  }

  type Mappings = map<string, map<string, string>>

  /** What one virtual object contributes to the cache: index to lookup key to value. */
  datatype IndexMappings = IndexMappings(name: string, mappings: Mappings)

  /** One element of a lookup list: the object it came from and the value it maps to. */
  datatype Entry = Entry(name: string, value: string)

  /** The cached form NAMESPACE/NAME of a virtual name. */
  function Encode(n: NamespacedName): string {
    n.namespace + "/" + n.name
  }

  function StringToNamespacedName(s: string): NamespacedName {
    var parts := Split(s, '/');
    if |parts| == 2 then NamespacedName(parts[0], parts[1]) else NO_NAME
  }

  /** A string decodes to a name exactly when it is the encoding of slash-free parts; nothing else decodes to it. */
  lemma {:induction false} DecodeEncode(n: NamespacedName)
    ensures '/' !in n.namespace && '/' !in n.name ==> StringToNamespacedName(Encode(n)) == n
    ensures '/' in n.namespace || '/' in n.name ==> StringToNamespacedName(Encode(n)) == NO_NAME
  {
    SplitAround(n.namespace, '/', n.name);
    SplitSingle(n.namespace, '/');
    SplitSingle(n.name, '/');
    assert Encode(n) == n.namespace + ['/'] + n.name;
  }

  function PathKey(hostName: string, path: string): string {
    hostName + "/" + path
  }

  /** Lookup keys of slash-free host names determine both parts, even when the path holds slashes. */
  lemma {:induction false} PathKeyInjective(h: string, p: string, h': string, p': string)
    requires '/' !in h && '/' !in h'
    requires PathKey(h, p) == PathKey(h', p')
    ensures h == h' && p == p'
  {
    SplitHead(h, '/', p);
    SplitHead(h', '/', p');
    assert PathKey(h, p) == h + ['/'] + p && PathKey(h', p') == h' + ['/'] + p';
  }

  // ----- translate.PhysicalName

  /** The vcluster suffix and the hexadecimal digest function, which stays abstract. */
  datatype Translator = Translator(suffix: string, digest: string -> string)

  function Concat(t: Translator, name: string, namespace: string): string {
    Join([name, "x", namespace, "x", t.suffix], '-')
  }

  function PhysicalName(t: Translator, name: string, namespace: string): string {
    if name == "" then ""
    else
      var full := Concat(t, name, namespace);
      if |full| > 63 then ReplaceAll(full[..52] + "-" + Take10(t.digest(full)), ".-", "-")
      else full
  }

  function Take10(s: string): string {
    if |s| <= 10 then s else s[..10]
  }

  lemma {:induction false} ConcatParts(t: Translator, name: string, namespace: string)
    ensures Concat(t, name, namespace) == name + "-x-" + namespace + "-x-" + t.suffix
  {
    var parts := [name, "x", namespace, "x", t.suffix];
    assert parts[1..] == ["x", namespace, "x", t.suffix];
    assert parts[2..] == [namespace, "x", t.suffix] && parts[1..][1..] == parts[2..];
    assert parts[3..] == ["x", t.suffix] && parts[2..][1..] == parts[3..];
    assert parts[4..] == [t.suffix] && parts[3..][1..] == parts[4..];
    assert Join(parts[3..], '-') == "x-" + t.suffix;
    assert Join(parts[2..], '-') == namespace + "-x-" + t.suffix;
    assert Join(parts[1..], '-') == "x-" + namespace + "-x-" + t.suffix;
  }

  /** Two different virtual names can share one host name, whatever the suffix and digest. */
  lemma {:induction false} PhysicalNameCollides(t: Translator)
    ensures PhysicalName(t, "a-x-b", "c") == PhysicalName(t, "a", "b-x-c")
  {
    ConcatParts(t, "a-x-b", "c");
    ConcatParts(t, "a", "b-x-c");
    assert "a-x-b" + "-x-" + "c" == "a" + "-x-" + "b-x-c";
  }

  lemma {:induction false} ReplaceAllShorter(s: string, from: string, to: string)
    requires from != "" && |to| <= |from|
    ensures |ReplaceAll(s, from, to)| <= |s|
    decreases |s|
  {
    if s != "" {
      ReplaceAllShorter(if from <= s then s[|from|..] else s[1..], from, to);
    }
  }

  /**
   A host name has at most 63 characters; it is name, namespace and suffix, joined with -x-, if that fits, and
   otherwise starts from the first 52 characters and ten of the digest.
   */
  lemma {:induction false} PhysicalNameFits(t: Translator, name: string, namespace: string)
    ensures |PhysicalName(t, name, namespace)| <= 63
    ensures var full := name + "-x-" + namespace + "-x-" + t.suffix;
      PhysicalName(t, name, namespace)
      == if name == "" then ""
         else if |full| <= 63 then full
         else
           var digest := t.digest(full);
           ReplaceAll(full[..52] + "-" + (if |digest| <= 10 then digest else digest[..10]), ".-", "-")
  {
    ConcatParts(t, name, namespace);
    var full := Concat(t, name, namespace);
    if |full| > 63 {
      ReplaceAllShorter(full[..52] + "-" + Take10(t.digest(full)), ".-", "-");
    }
  }

  /** Host names of slash-free virtual names hold no slash. */
  lemma {:induction false} PhysicalNameNoSlash(t: Translator, name: string, namespace: string)
    requires '/' !in name && '/' !in namespace && '/' !in t.suffix
    requires forall s :: '/' !in t.digest(s)
    ensures '/' !in PhysicalName(t, name, namespace)
  {
    var full := Concat(t, name, namespace);
    ConcatParts(t, name, namespace);
    if name != "" && |full| > 63 {
      var cut := full[..52] + "-" + Take10(t.digest(full));
      assert '/' !in cut;
      ReplaceAllKeepsOut(cut, ".-", "-", '/');
    }
  }
}
