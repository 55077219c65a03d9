/** The limits of a temperature/humidity sensor, as the registry keeps them and the sensor checks them. */
module Thresholds {

  datatype PointThreshold = PointThreshold(enable: bool, hasLow: bool, low: real, hasHigh: bool, high: real)

  datatype Threshold = Threshold(enabled: bool, temperature: PointThreshold, humidity: PointThreshold)

  const NO_POINT := PointThreshold(false, false, 0.0, false, 0.0)
  const ZERO_THRESHOLD := Threshold(false, NO_POINT, NO_POINT)
}
