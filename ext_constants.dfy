/** Command codes and sensor-type values of the DHT extension to the Firmata client
    (class `ExtConstants` of pymatacoreext.py). */
module ExtConstants {

  /** Outbound sysex command that configures a DHT sensor on a pin. */
  const DHT_CONFIG: int := 0x66
  /** Sysex command code of a DHT data request and of its reply; also the key of
      the reply slot in the client's reply table. */
  const DHT_DATA: int := 0x67

  /** DHT sensor types, as sent on the wire. */
  const DHT_TYPE_DHT11: int := 11
  const DHT_TYPE_DHT22: int := 22
  const DHT_TYPE_DHT21: int := 21
  const DHT_TYPE_AM2301: int := 21

  /** DHT21 and AM2301 are the same wire value, so nothing downstream can tell them
      apart; the two command codes are distinct. */
  lemma TypeAliasesShareWireValue()
    ensures DHT_TYPE_DHT21 == DHT_TYPE_AM2301 == 21
    ensures DHT_CONFIG != DHT_DATA
  {
  }
}
