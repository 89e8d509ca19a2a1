/**
 * The sensor record that `measure` fills in place (`SensorData *data`) and the readings the
 * drivers hand back during one full sample. The drivers themselves (SHT21, MAX30100,
 * MPU6050) are not modelled: what they return is an input, `Readings`.
 */
module Sensors {
  /** A raw `int16_t` register value from the MPU6050. */
  type Int16 = x: int | -32768 <= x < 32768

  /** Accelerometer counts per g at the ±2 g range. */
  const ACCEL_LSB_PER_G: real := 16384.0

  /** Gyroscope counts per degree per second at the ±250 °/s range. */
  const GYRO_LSB_PER_DPS: real := 131.0

  /** The ten fields of `SensorData`, as a value. */
  datatype Sample = Sample(
    temperature: real, humidity: real,
    heartRate: real, spO2: real,
    accelX: real, accelY: real, accelZ: real,
    gyroX: real, gyroY: real, gyroZ: real)

  /** What the drivers report during one full sample. */
  datatype Readings = Readings(
    shtOk: bool,                          // `sht.readSample()` succeeded
    temperature: real, humidity: real,    // `sht.getTemperature()`, `sht.getHumidity()`
    heartRate: real, spO2: real,          // `pox.getHeartRate()`, `pox.getSpO2()`
    ax: Int16, ay: Int16, az: Int16,      // `mpu.getMotion6(...)`
    gx: Int16, gy: Int16, gz: Int16)

  /**
   * The record after a full sample: temperature and humidity only when the SHT read
   * succeeded, every other field from this sample's readings.
   */
  function ApplyReadings(prev: Sample, rd: Readings): (r: Sample)
    ensures rd.shtOk ==> r.temperature == rd.temperature && r.humidity == rd.humidity
    ensures r.heartRate == rd.heartRate && r.spO2 == rd.spO2
    ensures r.accelX * ACCEL_LSB_PER_G == rd.ax as real && r.accelY * ACCEL_LSB_PER_G == rd.ay as real
    ensures r.accelZ * ACCEL_LSB_PER_G == rd.az as real
    ensures r.gyroX * GYRO_LSB_PER_DPS == rd.gx as real && r.gyroY * GYRO_LSB_PER_DPS == rd.gy as real
    ensures r.gyroZ * GYRO_LSB_PER_DPS == rd.gz as real
    ensures -2.0 <= r.accelX < 2.0 && -2.0 <= r.accelY < 2.0 && -2.0 <= r.accelZ < 2.0
  {
    Sample(
      if rd.shtOk then rd.temperature else prev.temperature,
      if rd.shtOk then rd.humidity else prev.humidity,
      rd.heartRate, rd.spO2,
      rd.ax as real / ACCEL_LSB_PER_G, rd.ay as real / ACCEL_LSB_PER_G, rd.az as real / ACCEL_LSB_PER_G,
      rd.gx as real / GYRO_LSB_PER_DPS, rd.gy as real / GYRO_LSB_PER_DPS, rd.gz as real / GYRO_LSB_PER_DPS)
  }

  /** A failed SHT read leaves the previous temperature and humidity in place. */
  lemma ShtFailureKeepsClimate(prev: Sample, rd: Readings)
    requires !rd.shtOk
    ensures ApplyReadings(prev, rd).temperature == prev.temperature
    ensures ApplyReadings(prev, rd).humidity == prev.humidity
  {
  }

  /**
   * Every field but temperature and humidity is overwritten: it does not depend on the
   * previous record. With a successful SHT read nothing of the previous record survives.
   */
  lemma ApplyReadingsOverwrites(p1: Sample, p2: Sample, rd: Readings)
    ensures ApplyReadings(p1, rd).(temperature := 0.0, humidity := 0.0)
         == ApplyReadings(p2, rd).(temperature := 0.0, humidity := 0.0)
    ensures rd.shtOk ==> ApplyReadings(p1, rd) == ApplyReadings(p2, rd)
  {
  }

  /** `SensorData`: the caller-owned record that `measure` writes through `SensorData *data`. */
  class SensorData {
    var temperature: real
    var humidity: real
    var heartRate: real
    var spO2: real
    var accelX: real
    var accelY: real
    var accelZ: real
    var gyroX: real
    var gyroY: real
    var gyroZ: real

    /** A zero-initialised record. */
    constructor ()
      ensures Snapshot() == Sample(0.0, 0.0, 0.0, 0.0, 0.0, 0.0, 0.0, 0.0, 0.0, 0.0)
    {
      temperature, humidity, heartRate, spO2 := 0.0, 0.0, 0.0, 0.0;
      accelX, accelY, accelZ, gyroX, gyroY, gyroZ := 0.0, 0.0, 0.0, 0.0, 0.0, 0.0;
    }

    /** The current field values. */
    function Snapshot(): Sample
      reads this
    {
      Sample(temperature, humidity, heartRate, spO2, accelX, accelY, accelZ, gyroX, gyroY, gyroZ)
    }
  }
}
