/**
 The two pure pieces of `main.py`: the `Key=Value` parser of the secret file
 and the address dictionary handed to `Pipeline`.
 */
module Main {
  import opened Wrappers
  import opened Text
  import opened Pipeline

  /** `split('=')[1]` on content without `=` raises `IndexError`. */
  datatype SecretError = MissingSeparator

  /** `load_subscription_key` over the file content: element 1 of the content split
      on `=`, i.e. the text between the first and the second `=` (or the end).
      Nothing is trimmed and the prefix before the first `=` is not looked at. */
  function LoadSubscriptionKey(content: string): (r: Result<string, SecretError>)
    ensures r.Failure? <==> '=' !in content
    ensures r.Success? ==> '=' !in r.value
    ensures r.Success? ==>
      var prefix := BeforeFirst(content, '=');
      content[|prefix|] == '=' && r.value == BeforeFirst(content[|prefix| + 1..], '=')
  {
    var parts := Split(content, '=');
    SplitCount(content, '=');
    assert '=' !in content ==> multiset(content)['='] == 0;
    assert '=' in content ==> multiset(content)['='] > 0;
    if |parts| < 2 then Failure(MissingSeparator)
    else
      SplitSecond(content, '=');
      Success(parts[1])
  }

  /** Any label without `=`, then `=`, then the key: the key comes back whole,
      and anything after a second `=` is dropped. */
  lemma {:induction false} KeyAfterAnyLabel(prefix: string, key: string, rest: string)
    requires '=' !in prefix && '=' !in key
    ensures LoadSubscriptionKey(prefix + "=" + key) == Success(key)
    ensures LoadSubscriptionKey(prefix + "=" + key + "=" + rest) == Success(key)
  {
    assert prefix + "=" + key == prefix + ['='] + key;
    SplitNoSeparator(key, '=');
    SplitConcat(prefix, '=', key);
    assert prefix + "=" + key + "=" + rest == prefix + ['='] + (key + ['='] + rest);
    SplitConcat(key, '=', rest);
    SplitConcat(prefix, '=', key + ['='] + rest);
  }

  /** The documented format `Subscription-Key=K` yields exactly `K`. */
  lemma WellFormedSecret(key: string)
    requires '=' !in key
    ensures LoadSubscriptionKey("Subscription-Key=" + key) == Success(key)
  {
    assert "Subscription-Key=" + key == "Subscription-Key" + "=" + key;
    KeyAfterAnyLabel("Subscription-Key", key, "");
  }

  /** No trimming: a space after `=` and a trailing newline stay in the key. */
  lemma WhitespaceIsKept(key: string)
    requires '=' !in key
    ensures LoadSubscriptionKey("Subscription-Key= " + key + "\n") == Success(" " + key + "\n")
  {
    assert "Subscription-Key= " + key + "\n" == "Subscription-Key" + "=" + (" " + key + "\n");
    KeyAfterAnyLabel("Subscription-Key", " " + key + "\n", "");
  }

  /** The `address` dictionary `main` builds from its four arguments. */
  function MakeAddress(city: string, street: string, houseNumber: string, zipCode: string): (m: map<string, string>)
    ensures m.Keys == {"city", "street", "house_number", "zip_code"}
    ensures m["city"] == city && m["street"] == street
      && m["house_number"] == houseNumber && m["zip_code"] == zipCode
  {
    map["city" := city, "street" := street, "house_number" := houseNumber, "zip_code" := zipCode]
  }

  /** The pipeline reads back exactly the four arguments, and they reach the
      building lookup's query parameters unchanged. */
  lemma AddressPassesThrough(city: string, street: string, houseNumber: string, zipCode: string)
    ensures PipelineAddress(MakeAddress(city, street, houseNumber, zipCode)) == Some(Address(city, street, houseNumber, zipCode))
    ensures var params := BuildingQueryParams(Address(city, street, houseNumber, zipCode));
      params["City"] == city && params["Street"] == street
      && params["HouseNumber"] == houseNumber && params["ZipCode"] == zipCode
  {
  }
}
