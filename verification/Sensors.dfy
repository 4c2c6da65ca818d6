/** The measured quantities: nine gases of a gas sensor, three electrical values of a power channel. */
module Sensors {
  datatype Sensor = Co | H2s | Co2 | O2 | No2 | So2 | O3 | Nh3 | Voc | Voltage | Current | Watts

  const GAS_FIELDS := [Co, H2s, Co2, O2, No2, So2, O3, Nh3, Voc]

  const POWER_SENSORS := [Voltage, Current, Watts]
}
